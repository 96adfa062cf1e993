# merutable, verified

A Dafny model of the core of merutable, a log-structured table store whose
files are Parquet and whose snapshots follow Apache Iceberg, and proofs about
it. `dafny verify dfyconfig.toml` checks everything.

The central result is about the whole engine. Writers, rotations, flushes (in
their three visible moments: commit, install, drop) and cached lookups are
steps of a state machine over memtables, a manifest, Puffin files and data
files. In every state of every run a lookup returns the row of the key's last
put, and a range scan returns exactly the keys that lookups find
(`EngineRuns`, `EngineReads`, `Engine`). If every flush emits deletion vectors,
the rows that are not masked contain each key at most once, in its newest
version, exactly as long as no flush overlooks a row (`UniqueRows`). Lookups and
scans whose parts fall into different states of a run are characterised over
the same runs (`SplitLookup`, `LookupWindow`, `EarlyVersion`). These rest on
results about the layers below, each proved on its own: the key encoding, the
page index, the bloom filter, reading a file, streaming its keys, resolving
deletion vectors, the manifest and the catalog.

## How it is laid out

| file | models |
|---|---|
| `Keys`, `KeyLayout` | the order-preserving key encoding and internal keys |
| `KvIndex`, `KvIndexLayout`, `Bloom` | the two structures in a file's footer |
| `Table`, `Visibility`, `Sst` | rows, visibility, reading one data file |
| `KeyRange`, `DvResolve`, `Straddling` | streaming keys, finding superseded rows, and two files in which rows are overlooked |
| `Memtable` | skip list, iterator, batches, memtable queue |
| `DeletionVector`, `Manifest`, `Versions`, `Catalog` | bitmaps in Puffin files, manifest and row lineage, versions, commits |
| `LiveFiles`, `ReadPath` | the files of a version, lookups and scans over them |
| `Flush`, `FlushCommit`, `Emission` | from memtable to file, the commit, the deletion vectors |
| `EngineState`, `EngineSteps`, `EngineReads`, `EngineRuns`, `UniqueRows`, `FlushOutcome` | state, steps, reads, whole runs, what a flush leads to |
| `VersionFate`, `SplitLookup`, `LookupWindow`, `EarlyVersion` | what becomes of a version, and reads spread over a run |
| `Engine` | the engine's methods, proved to take these steps |
| `Hazards`, `StaleCache`, `RowCache`, `FileGc`, `GcProgress`, `WritePath` | finer interleavings: what holds, and what does not |
| `Samples`, `Counterexamples`, `LostUniqueness` | a concrete system, and runs of it that go wrong |
| `Wrappers`, `Arithmetic`, `ByteStrings`, `Sorting` | shared definitions |

What comes from outside is a parameter: the bloom hash (nothing is assumed of
it), the roaring serialization (assumed to decode what it encodes), CRC and
Puffin footer, the Parquet writer (assumed to store the rows it is given with a
matching index, bloom filter and bounds), the clock of the file collector,
whether the log takes a batch, which Puffin writes fail, whether writing
metadata succeeds, and the choices of the cache's eviction. Names of new files
are assumed to be new, as random UUIDs are.

## Where the code does not do what it promises

Each has an input or a run that shows it, and the exact condition under which
the promise holds.

- Decoding a primary key with Float or Double columns gives other values
  (`Keys.FloatKeyNotRecovered`, `Keys.PkRoundTrip`).
- The stream of keys in `[lo, hi]` can skip newer versions of `lo`
  (`Straddling.NewestRowLost`, `KeyRange.YieldIsComplete`), so a flush can
  leave a superseded row unmasked (`DvResolve.DeltaIs`). The same happens to a
  key that encodes to nothing (`Straddling.EmptyKeyNeverMasked`). A key then
  has two visible rows (`LostUniqueness.EmittedFlushLosesUniqueness`,
  `UniqueRows.RunUniqueIff`).
- A manual flush of an empty memtable, or a rotation between a batch's
  reservation and its inserts, can give two memtables one label; dropping one
  then drops both (`Hazards.EmptyRotationLosesWrites`,
  `Counterexamples.EmptyRotationIsReachable`, `WritePath.LabelGivenTwice`,
  `Hazards.RotationLabels`, `Memtable.DropExact`).
- A range scan takes its version before it reads the memtables and can miss
  rows flushed in between (`Counterexamples.EarlyScanMisses`,
  `EarlyVersion.EarlyVersionIff`).
- A point lookup reads the memtables first, but fixes its sequence number even
  before. If the key is rewritten and flushed in between, the new row is too new
  and the old one masked, or not even in the file if both were in one memtable;
  a key that was live throughout is then not found
  (`Counterexamples.LookupMissesLiveKey`, `LookupWindow.LookupWindowIff`,
  `SplitLookup.RecordFoundIff`).
- A lookup captures the cache generation after it fixed its sequence number and
  can cache an old row for good, even if the capture follows the memtable check
  at once (`StaleCache.StaleCacheIsReachable`,
  `StaleCache.CaptureWindowIsSharp`). A capture before would leave old rows only
  while a write is in progress (`StaleCache.OldRowCachedInPassing`,
  `StaleCache.ReadWindowIsSharp`).
- The file collector can delete a file under a reader if the sweep acts a grace
  period after it read the pins, or if a compaction queues its inputs with the
  snapshot it was based on (`FileGc.LateSweepIsUnsafe`,
  `FileGc.BaseSnapshotIsUnsafe`, `FileGc.SafetyIsSharp`).
- The page index writes the low 32 bits of its lengths, so building can succeed
  with a buffer that parsing refuses (`KvIndex.BuiltButRefused`,
  `KvIndex.RoundTrip`). The bloom filter does so with its bucket count
  (`Bloom.RoundTrip`).

## Model

| member | source | states |
|---|---|---|
| EngineRuns.LookupReturnsLastPut | crates/merutable/src/engine/read_path.rs:94-197 | In every state of every run of writes, refused writes, rotations of non-empty memtables, flush commits (with or without deletion vectors), failed flushes, installs, drops, cache fills and evictions, the search through memtables and files returns the row of the key's last put, nothing after a delete, and what the table held at opening if the key was never written |
| EngineRuns.RunKeepsInv | crates/merutable/src/engine/flush.rs:261-343 | Every step of every run keeps the invariant, also between commit, install and drop of a flush |
| EngineRuns.StepKeepsInv | crates/merutable/src/engine/flush.rs:36-353 | The same for one step of any kind |
| EngineRuns.SpecIsHistory | crates/merutable/src/engine/write_path.rs:195-237 | The reference map of a run is the history of all written records: a key's entry is its last record |
| EngineRuns.SpecManyIs | crates/merutable/src/memtable/memtable.rs:55-104 | After a batch a key's entry is its last record in the batch, and keys not in the batch keep theirs |
| EngineRuns.OpenedOk | crates/merutable/src/engine/engine.rs:230-350 | Opening a table with an empty log establishes the invariant for any sound set of files, with the newest row on disk as each key's last operation |
| EngineRuns.NewTableOk | crates/merutable/src/iceberg/manifest.rs:379-397 | A newly created table satisfies the invariant, so runs exist |
| Samples.SampleSysOk | crates/merutable/src/engine/flush.rs:164-259 | The assumptions about serialization, bloom filter and Parquet writer can be met: one concrete system meets them |
| EngineRuns.FillKeepsInv | crates/merutable/src/engine/read_path.rs:128-158 | A row a lookup caches is the key's last operation |
| EngineRuns.CacheKeepsInv | crates/merutable/src/engine/engine.rs:549-551 | Changing only the cache keeps the invariant as long as entries agree with the last operations |
| EngineRuns.EvictKeepsInv | crates/merutable/src/engine/cache.rs:109-115 | Any eviction keeps the invariant |
| EngineRuns.AbortKeepsInv | crates/merutable/src/engine/write_path.rs:195-227 | A batch the log refuses moves the counter on and changes nothing a reader can see |
| EngineState.TopmostIsLast | crates/merutable/src/memtable/manager.rs:142-156 | The first memtable from the newest down that has a key has the key's last operation |
| EngineState.DiskIsLast | crates/merutable/src/engine/read_path.rs:136-193 | If no memtable has the key, its last operation is a visible row of the installed version |
| EngineState.LowerIsOlder | crates/merutable/src/engine/read_path.rs:94-197 | What a deeper layer holds for a key is not newer than the newest version in a memtable above it, also while a flushed memtable and its file coexist |
| EngineSteps.WriteKeepsInv | crates/merutable/src/engine/engine.rs:521-551 | One record with a fresh sequence number becomes its key's last operation and leaves all other keys alone |
| EngineSteps.BatchKeepsInv | crates/merutable/src/engine/write_path.rs:195-244 | The same for a batch, record by record |
| EngineSteps.BatchIsMany | crates/merutable/src/memtable/memtable.rs:55-104 | Inserting record by record gives the memtable, counters and cache of the batch as a whole |
| EngineSteps.RotateKeepsInv | crates/merutable/src/memtable/manager.rs:73-90 | Rotating a memtable that is not empty keeps the invariant and gives it a label of its own |
| EngineSteps.CommitKeepsInv | crates/merutable/src/engine/flush.rs:261-327 | Committing a flush of the oldest memtable keeps the invariant: readers of the installed version see no difference, and the committed version is a sound successor |
| EngineSteps.FailKeepsInv | crates/merutable/src/iceberg/catalog.rs:525-533 | A failed flush changes nothing a reader can see |
| EngineSteps.InstallKeepsInv | crates/merutable/src/engine/flush.rs:328-328 | Swapping in the committed version keeps every key's last operation visible: rows that become masked are superseded in memory |
| EngineSteps.InstallTracks | crates/merutable/src/iceberg/version.rs:143-147 | The core of it: the newest stored version of each key is still its last operation |
| EngineSteps.DropKeepsInv | crates/merutable/src/memtable/manager.rs:92-98 | Dropping the flushed memtable loses nothing: its newest versions are visible in the file |
| EngineSteps.DropIsTail | crates/merutable/src/memtable/manager.rs:92-98 | Exactly the oldest memtable goes, because labels are distinct |
| EngineSteps.DroppedIsSaved | crates/merutable/src/engine/flush.rs:61-146 | The newest version of each key of the flushed memtable is a visible row |
| EngineSteps.ShownAfter | crates/merutable/src/engine/flush.rs:281-327 | A row visible after the install was visible before or is the newest of its key in the flushed memtable |
| EngineSteps.ShownBefore | crates/merutable/src/engine/flush.rs:281-327 | A row visible before is still visible, or the flushed memtable has its key |
| EngineReads.MemSearch | crates/merutable/src/memtable/manager.rs:142-156 | The memtable search returns the last operation, or shows that no memtable has the key |
| EngineReads.DiskSearch | crates/merutable/src/engine/read_path.rs:136-193 | After a miss in all memtables, the newest row on disk is the last operation, and no row means the key was never written |
| EngineReads.ScanIsRight | crates/merutable/src/engine/read_path.rs:392-417 | Sorting and deduplicating a complete harvest lists exactly the live keys in range, ascending, with the rows of their last puts |
| EngineReads.ScanAgreesWithLookup | crates/merutable/src/engine/read_path.rs:277-417 | A key is in the result of a scan if and only if it is in range and a lookup finds it, and then with the same row |
| EngineReads.HarvestMem | crates/merutable/src/engine/read_path.rs:315-351 | A memtable's part of a scan: only stored versions in range, and for every key the newest |
| Engine.MeruEngine.PointLookup | crates/merutable/src/engine/read_path.rs:94-197 | Fails exactly if the tuple does not have one fitting value for every key column, with the error of the first that does not fit; otherwise returns the row of the last put of that key, or nothing, whatever is cached; keeps the invariant |
| Engine.MeruEngine.LookupBelow | crates/merutable/src/engine/read_path.rs:112-193 | The stops after the memtables give the same answer with and without the cache |
| Engine.MeruEngine.Remember | crates/merutable/src/engine/cache.rs:109-115 | Caching a row read from disk, with any evictions, keeps the invariant |
| Engine.MeruEngine.Scan | crates/merutable/src/engine/read_path.rs:277-307 | Fails exactly if a bound does not fit the key columns, the start bound deciding first; otherwise the result is ascending, every listed row is what a lookup returns, and a key tuple is listed if and only if it has a row and is at or after the start and before the end in the order of tuples |
| Engine.RangeIsBetween | crates/merutable/src/engine/read_path.rs:292-307 | An encoded key is in the range of the encoded bounds if and only if the tuple is between the bounds in the order of tuples |
| Engine.MeruEngine.RangeScan | crates/merutable/src/engine/read_path.rs:308-417 | Harvest of memtables and files, sort and deduplication return exactly the live keys in range with their rows |
| Engine.MeruEngine.ApplyBatch | crates/merutable/src/engine/write_path.rs:195-244 | The critical section and the invalidation: new counters, memtable and cache, and every key's last record becomes its last operation; if the log refuses the batch, only its sequence numbers are gone |
| Engine.MeruEngine.Invalidate | crates/merutable/src/engine/write_path.rs:239-244 | Exactly the written keys leave the cache |
| Engine.MeruEngine.Rotate | crates/merutable/src/engine/engine.rs:567-568 | Seals and queues the active memtable and labels the new one with the counter plus one |
| Engine.MeruEngine.FlushDeltas | crates/merutable/src/engine/flush.rs:261-315 | With emission on, fails exactly if some file cannot be resolved, and otherwise returns the resolver's delta of every live file for exactly the memtable's keys; with emission off, nothing; in any case the deltas name superseded rows only |
| Engine.MeruEngine.CommitJob | crates/merutable/src/engine/flush.rs:164-327 | Succeeds if and only if every merged deletion vector can be read and encoded, none of its writes fails and the metadata is written; on failure only orphans remain |
| Engine.MeruEngine.FlushOldest | crates/merutable/src/engine/flush.rs:36-327 | Does nothing exactly if nothing is queued, drops the oldest memtable exactly if it is empty, commits it exactly if the flush can work (see `RunFlush`), with the deltas of its keys or, without emission, none, and otherwise fails in a way readers cannot see |
| Engine.MeruEngine.Install | crates/merutable/src/engine/flush.rs:328-328 | Installs the committed version and nothing else |
| Engine.MeruEngine.DropFlushed | crates/merutable/src/engine/flush.rs:343-343 | Drops the memtables with the flushed one's label |
| Engine.MeruEngine.RunFlush | crates/merutable/src/engine/flush.rs:36-353 | Succeeds if and only if nothing is queued, or every live file can be resolved (with emission on), every deletion vector that grows can be encoded and written and the metadata is written. Then exactly the oldest memtable is gone; the version has its file, with the newest record of each of its keys, and every file from before with its mask grown by exactly the resolver's marks, or unchanged without emission. With emission and one visible row per key before, there is one visible row per key after, the newest, if and only if the flush overlooks no row. A failure removes nothing; no answer ever changes |
| FlushOutcome.FlushedIs | crates/merutable/src/engine/flush.rs:261-353 | The same for the state after commit, install and drop, for any deltas that are the resolver's or, without emission, empty |
| FlushOutcome.CommitIffWritable | crates/merutable/src/iceberg/catalog.rs:323-441 | The commit of a flush works if and only if, for every live file that gets marks, its old mask united with them can be encoded and written |
| Engine.MeruEngine.constructor | crates/merutable/src/engine/engine.rs:230-341 | Counter, label and visible sequence number after opening |
| Engine.BuildTxn | crates/merutable/src/iceberg/snapshot.rs:56-90 | The transaction holds the added file and exactly the given deltas |
| UniqueRows.RunUniqueIff | crates/merutable/src/engine/flush.rs:261-315 | Over every run in which each flush emits deletion vectors, starting where the unmasked rows of all live files contain each key at most once in its newest version: this holds in every state, for the installed and the committed version, if and only if no flush overlooks a row of its keys (lost to the stream, or in a file with an empty bound) |
| UniqueRows.RunKeepsUnique | crates/merutable/src/engine/flush.rs:261-315 | It does hold in every state if also no live file at the start has a lost row or an empty bound, and keys do not encode to nothing: no flush of such a run makes a file in which rows are overlooked |
| UniqueRows.FlushUniqueIff | crates/merutable/src/engine/flush.rs:261-327 | One flush, with any sound deltas: the committed version has one visible row per key if and only if the deltas name every superseded row; the installed version keeps its own |
| UniqueRows.StepUniqueIff | crates/merutable/src/engine/flush.rs:261-343 | One step of a run keeps the property if and only if it is not a flush that overlooks a row |
| UniqueRows.CompleteIffNothingOverlooked | crates/merutable/src/engine/dv_resolve.rs:69-182 | The resolver names every superseded row if and only if none is in a file with an empty bound or lost to the stream |
| LostUniqueness.EmittedFlushLosesUniqueness | crates/merutable/src/engine/dv_resolve.rs:124-170 | A state with one visible row per key and a flush with the resolver's own deltas after which a key has two: its versions lie on two pages and the older one is masked |
| UniqueRows.NextTransparent | crates/merutable/src/engine/flush.rs:61-146 | Flushed files hold one row per key and no empty key, so the resolver overlooks nothing in them later |
| Emission.FlushKeepsUnique | crates/merutable/src/iceberg/manifest.rs:462-512 | If all superseded rows are masked, the successor version has one visible row per key, the newest |
| Emission.ResolvedIsSound | crates/merutable/src/engine/dv_resolve.rs:124-178 | The resolver marks only rows whose key is in the memtable, whatever the files look like |
| Emission.ResolvedIsComplete | crates/merutable/src/engine/dv_resolve.rs:69-181 | It marks all of them if no file has a lost row or an empty bound |
| Emission.StillOneRow | crates/merutable/src/engine/flush.rs:261-315 | Two visible rows of a key after the flush are the same row |
| Emission.StillShown | crates/merutable/src/engine/flush.rs:261-315 | A row that gets masked is superseded by a visible newer one, so masking never hides a newest version |
| Hazards.EmptyRotationLosesWrites | crates/merutable/src/engine/engine.rs:627-658 | A manual flush rotates a memtable that is empty; after a write and another rotation, dropping the empty memtable also drops the one with the write |
| Hazards.RotationLabels | crates/merutable/src/engine/engine.rs:567-568 | A rotation keeps labels distinct if and only if the active memtable's label is at most the counter |
| LookupWindow.LookupWindowIff | crates/merutable/src/engine/read_path.rs:94-197 | Over every run from one visible row per key in which no flush overlooks a row: a point lookup that fixes its read sequence number in one state, searches the memtables in a later one and takes its version in a third answers as it would have at once, if and only if the key had no row then, or its last operation is still in memory at the search, or no flush installed from the first state to the third holds a version of the key above the read sequence number |
| LookupWindow.UndisturbedLookup | crates/merutable/src/engine/read_path.rs:94-197 | In every run, with or without deletion vectors: if no such flush is installed, the lookup finds the key's last operation of the moment it began |
| LookupWindow.CompleteFlushLoses | crates/merutable/src/engine/flush.rs:261-315 | A flush that marks every superseded row loses a row on disk exactly if it holds the row's key |
| SplitLookup.RecordFoundIff | crates/merutable/src/engine/read_path.rs:94-197 | Over every run, record by record: the lookup in its three moments finds the key's last operation of the first one if and only if that is still in memory at the search or no step up to the third lost it |
| SplitLookup.MemoryUpTo | crates/merutable/src/memtable/manager.rs:142-156 | At any read sequence number, the search through the memtables finds the newest version in memory that is not above it, or shows there is none |
| VersionFate.VersionsOverTime | crates/merutable/src/engine/flush.rs:261-343 | Over every run: a version numbered before is stored later if and only if it was stored and no install masked its row and no drop took a memtable that held it below a newer version; nothing comes back |
| VersionFate.StepFate | crates/merutable/src/engine/flush.rs:36-353 | The same for one step of any kind |
| VersionFate.RunAbove | crates/merutable/src/engine/write_path.rs:195-237 | Once all versions of a key in memory are above a number, they are in every later state |
| EarlyVersion.EarlyVersionIff | crates/merutable/src/engine/read_path.rs:292-417 | Over every run: a range scan that takes its version in one state, fixes its read sequence number in a later one and reads the memtables in a third keeps a key's last operation of the second if and only if no memtable that holds it is dropped from the first to the third after an install in that time |
| EarlyVersion.PinnedReads | crates/merutable/src/engine/engine.rs:1164-1202 | In every later state of a run the files and deletion vectors of a version taken earlier read as they did, whatever is committed meanwhile |
| Counterexamples.LookupMissesLiveKey | crates/merutable/src/engine/read_path.rs:94-197 | A run of write, rotation, flush with deletion vectors and install: the key is live in every state, and a lookup that began before the write and takes its version after the install finds nothing |
| Counterexamples.EarlyScanMisses | crates/merutable/src/engine/read_path.rs:292-319 | The same run with the drop: a scan that takes its version before the install and reads the memtables after the drop does not harvest the last operation of a live key |
| Counterexamples.EmptyFlushKeepsInv | crates/merutable/src/engine/engine.rs:627-658 | A manual flush of a table with nothing in memory keeps the invariant and moves only the active memtable's label, to one above the counter |
| Counterexamples.EmptyRotationIsReachable | crates/merutable/src/engine/engine.rs:627-658 | So a new table after one manual flush meets the premises of `Hazards.EmptyRotationLosesWrites` |
| Straddling.NewestRowLost | crates/merutable/src/parquet/reader.rs:552-582 | A file with two versions of a key on two pages, of which the stream yields only the older |
| Straddling.EmptyKeyNeverMasked | crates/merutable/src/engine/dv_resolve.rs:230-241 | Under a schema whose keys encode to nothing, a superseded row is never masked |
| ReadPath.DiskLookup | crates/merutable/src/engine/read_path.rs:136-193 | Stopping at the first hit in L0 and at one candidate file per deeper level returns the newest visible version of the key in all live files; an error means a file of the version is missing or damaged in that way |
| ReadPath.SearchL0 | crates/merutable/src/engine/read_path.rs:142-168 | The first L0 file with a hit has the newest version; no hit means no L0 file has one; errors are those of opening a file |
| ReadPath.SearchDeeper | crates/merutable/src/engine/read_path.rs:170-193 | The first deeper level with a hit has the newest version; errors as above |
| ReadPath.GetFrom | crates/merutable/src/engine/read_path.rs:51-88 | Opening a file and looking a key up: fails exactly if the file or its deletion vector cannot be read, otherwise the newest unmasked row or none |
| ReadPath.FirstHitIsNewest | crates/merutable/src/engine/read_path.rs:139-141 | Why: L0 files cover different sequence numbers, files of a level different keys, and shallower levels are newer |
| ReadPath.FileLookup | crates/merutable/src/parquet/reader.rs:226-254 | A lookup in one file gives the newest unmasked row of the key, or shows there is none |
| ReadPath.HarvestDisk | crates/merutable/src/engine/read_path.rs:357-390 | The harvest of all files holds visible rows in range only and represents every visible row in range, or some file is missing or damaged |
| ReadPath.SkippedIff | crates/merutable/src/engine/read_path.rs:360-375 | A scan skips a file with bounds if and only if no key between them is in the range, unless the range itself is empty |
| ReadPath.HarvestFile | crates/merutable/src/engine/read_path.rs:361-388 | The same for one file, including the two tests that skip it unopened; fails exactly if it is not skipped and cannot be opened |
| ReadPath.MergeHarvest | crates/merutable/src/engine/read_path.rs:392-413 | Strictly ascending keys; exactly the puts that come first among the entries of their key |
| ReadPath.OutOfRange | crates/merutable/src/engine/read_path.rs:262-270 | A file outside whose bounds the key lies has no row of it |
| DvResolve.Resolve | crates/merutable/src/engine/dv_resolve.rs:63-182 | The delta of every live file that has one and nothing else; fails exactly if a file that is not pruned, or its deletion vector, cannot be read, or a matching row lies beyond 32-bit positions |
| DvResolve.OverlapsIff | crates/merutable/src/engine/dv_resolve.rs:230-241 | A file is searched if and only if its bounds are not empty and its key range has a key in common with the memtable's |
| DvResolve.WindowIs | crates/merutable/src/engine/dv_resolve.rs:88-96 | The window searched in a file is exactly what its key range and the memtable's have in common |
| DvResolve.ResolveFile | crates/merutable/src/engine/dv_resolve.rs:124-170 | The merge of the sorted keys with the streamed rows gives exactly the matching positions not yet masked, early break included |
| DvResolve.ResolveOne | crates/merutable/src/engine/dv_resolve.rs:86-170 | Prune, load of the existing deletion vector, skip of fully masked files, and merge: the delta of the file, or a failure exactly if the file is in such a state |
| DvResolve.ResolveLevel | crates/merutable/src/engine/dv_resolve.rs:83-178 | The files of a level, accumulated: the deltas of all of them if none fails, and an error only if one does |
| DvResolve.DeltaIs | crates/merutable/src/engine/dv_resolve.rs:69-182 | A position is marked if and only if its row is unmasked, its key is in the list, the file's bounds are not empty and the row is not lost to the stream; the prune, the skip and the break lose nothing |
| DvResolve.DeltaExact | crates/merutable/src/engine/dv_resolve.rs:69-182 | Without lost rows and empty bounds: exactly the positions whose key is in the list, minus those already masked |
| DvResolve.Advance | crates/merutable/src/engine/dv_resolve.rs:133-141 | The cursor stops at the key if and only if the list has it |
| DvResolve.FirstNotBelow | crates/merutable/src/engine/dv_resolve.rs:125-129 | The partition point of a sorted key list |
| KeyRange.YieldIsComplete | crates/merutable/src/parquet/reader.rs:501-582 | The stream yields exactly the rows of [lo, hi] in file order if and only if no version of lo is followed by a page that starts with lo |
| KeyRange.YieldMembers | crates/merutable/src/parquet/reader.rs:552-582 | Row by row: yielded if and only if in the window and not such a version of lo |
| KeyRange.YieldRises | crates/merutable/src/parquet/reader.rs:501-596 | What is yielded are rows of the window, in ascending position, without repeats |
| KeyRange.IterUserKeysInRange | crates/merutable/src/parquet/reader.rs:501-596 | The opened iterator has exactly the specified rows to yield |
| KeyRange.RangeKeyIter.NextKey | crates/merutable/src/parquet/reader.rs:805-846 | Yields the next remaining row, loading pages or the fallback as needed |
| KeyRange.RangeKeyIter.constructor | crates/merutable/src/parquet/reader.rs:792-800 | What remains right after opening |
| KeyRange.SelectPages | crates/merutable/src/parquet/reader.rs:552-582 | The page selection loop |
| KeyRange.SingleVersionNoneLost | crates/merutable/src/parquet/reader.rs:552-582 | With one row per key nothing is lost |
| Sst.Get | crates/merutable/src/parquet/reader.rs:111-224 | Bloom gate, range gate, page fast path with its multi-version guard, and fallback return what a walk over all rows returns, whichever page the index named |
| Sst.PageHitSettles | crates/merutable/src/parquet/reader.rs:160-205 | A hit on a page that does not start with the key is the first hit of the whole file |
| Sst.ReadPage | crates/merutable/src/parquet/reader.rs:393-466 | A page is the slice of rows up to the next page or the end of its row group; fails exactly beyond the last row |
| Sst.LocateGroup | crates/merutable/src/parquet/reader.rs:405-430 | The row group of a row |
| Sst.FindVisible | crates/merutable/src/parquet/reader.rs:226-254 | The first row of the key that is unmasked and not newer than the read sequence number |
| Sst.Scan | crates/merutable/src/parquet/reader.rs:265-311 | For every key in range with a visible row exactly what a lookup finds, ascending |
| Visibility.LookupIsNewest | crates/merutable/src/parquet/reader.rs:226-254 | The first visible row of a sorted run is the newest visible one |
| Table.SortedIsByteOrder | crates/merutable/src/types/key.rs:185-192 | Rows are sorted by user key and descending sequence number if and only if their encoded keys ascend |
| KvIndex.RoundTrip | crates/merutable/src/parquet/kv_index.rs:141-435 | For every strictly ascending list of keys up to 65535 bytes and every interval, the encoding is accepted if and only if its entries section is under 2^32 bytes, and then gives back the list |
| KvIndex.BuiltButRefused | crates/merutable/src/parquet/kv_index.rs:279-345 | A list of 2^28 keys that building accepts and parsing refuses, for every interval |
| KvIndex.BuildThenSearch | crates/merutable/src/parquet/kv_index.rs:469-546 | Building, parsing, iterating and searching for any input: succeeds exactly for lists as above, and then gives the list itself, and the entry with the greatest key not above the target with its successor's first row, or nothing before the first key |
| KvIndex.Build | crates/merutable/src/parquet/kv_index.rs:141-225 | Succeeds exactly for strictly ascending keys of at most 65535 bytes, and writes the layout |
| KvIndexLayout.HeaderLayout | crates/merutable/src/parquet/kv_index.rs:141-225 | Version 1, number of entries, interval, size of the entries and number of restart points stand at their offsets, and nothing follows the restart table |
| KvIndexLayout.EntryLayout | crates/merutable/src/parquet/kv_index.rs:141-225 | Entries follow one another; each holds its fields at their offsets, shares nothing with its predecessor at a restart point and otherwise the longest common prefix |
| KvIndexLayout.RestartLayout | crates/merutable/src/parquet/kv_index.rs:141-225 | Restart point k is the offset of entry k times the interval |
| KvIndex.FromBytes | crates/merutable/src/parquet/kv_index.rs:279-435 | Accepts a buffer if and only if every entry fits, every shared length is covered by the key before, and every restart offset points at its entry |
| KvIndex.WalkEntries | crates/merutable/src/parquet/kv_index.rs:355-425 | The validation walk decides exactly that |
| KvIndex.FindPage | crates/merutable/src/parquet/kv_index.rs:482-546 | On any accepted buffer, built or not, the search ends, stays in bounds and returns an entry not above the target whose successor is above it, or nothing |
| KvIndex.RestartPoints | crates/merutable/src/parquet/kv_index.rs:548-555 | Every restart offset of an accepted buffer decodes to its entry |
| KvIndex.LastRestart | crates/merutable/src/parquet/kv_index.rs:488-511 | The binary search over restart points |
| KvIndex.ScanFrom | crates/merutable/src/parquet/kv_index.rs:512-544 | The linear scan from a restart point |
| KvIndex.AnswerUnique | crates/merutable/src/parquet/kv_index.rs:457-480 | For ascending keys there is only one answer |
| KvIndex.IndexIter.NextEntry | crates/merutable/src/parquet/kv_index.rs:606-619 | The iterator returns the entries one by one and then ends |
| KvIndex.Collect | crates/merutable/src/parquet/kv_index.rs:588-596 | Iterating returns all entries in order |
| KvIndex.SharedPrefixLen | crates/merutable/src/parquet/kv_index.rs:228-235 | The length of the common prefix |
| Bloom.AddAll | crates/merutable/src/parquet/bloom.rs:62-77 | For any hash values, every added key is reported, and no earlier report is lost |
| Bloom.FastLocalBloom.constructor | crates/merutable/src/parquet/bloom.rs:49-60 | An empty filter with the fewest whole buckets that hold the requested bits, at least one |
| Bloom.FastLocalBloom.Add | crates/merutable/src/parquet/bloom.rs:147-159 | Adds exactly the key's probe bits |
| Bloom.MayContain | crates/merutable/src/parquet/bloom.rs:161-180 | True if and only if all probe bits are set |
| Bloom.ProbesInBucket | crates/merutable/src/parquet/bloom.rs:143-180 | Every probe stays inside its 64-byte bucket, which lies inside the buffer |
| Bloom.RolledIs | crates/merutable/src/parquet/bloom.rs:143-180 | Before probe k the driver is the low half of the hash times 0x9e3779b9 to the power k, modulo 2^32 |
| Bloom.FromBytes | crates/merutable/src/parquet/bloom.rs:99-130 | An accepted buffer is a whole number of buckets |
| Bloom.RoundTrip | crates/merutable/src/parquet/bloom.rs:79-130 | Serializing and parsing gives the filter back if and only if it has fewer than 2^32 buckets |
| Bloom.AcceptedIff | crates/merutable/src/parquet/bloom.rs:79-130 | Parsing accepts exactly the serialized forms of filters with fewer than 2^32 buckets, and returns that filter; everything else is corruption |
| Keys.TupleOrder | crates/merutable/src/types/key.rs:194-268 | Byte order of encoded primary keys, whatever follows them, is the order of the tuples, for every column type |
| Keys.EncodedLess | crates/merutable/src/types/key.rs:194-268 | Comparing two encoded keys is comparing the tuples, and different tuples have different encodings |
| Keys.FieldOrder | crates/merutable/src/types/key.rs:208-268 | The same for one column |
| Keys.PkEncodes | crates/merutable/src/types/key.rs:194-268 | A primary key encodes if and only if it has one value of the right kind for every column, a fixed-length one of the right length and no NaN (by exponent and fraction); a wrong number of values is an invalid argument, and otherwise the first value that does not fit decides the error |
| Keys.FloatOrder | crates/merutable/src/types/key.rs:287-307 | The bit trick for floats is the IEEE 754 numeric order |
| Keys.EscapeOrder | crates/merutable/src/types/key.rs:270-285 | Escaping keeps byte-array order |
| Keys.EscapeByteArray | crates/merutable/src/types/key.rs:270-285 | The escaping loop appends the escaped bytes and the terminator |
| KeyLayout.FieldLayout | crates/merutable/src/types/key.rs:208-307 | The bytes of each column type: one byte for a boolean, offset binary for integers, the sign bit flipped for floats that have it clear and all bits for the others, raw or escaped bytes |
| KeyLayout.EscapeLayout | crates/merutable/src/types/key.rs:270-285 | Where every byte stands in the escaped string: behind the bytes before it and one 0xFF for each zero among them, each zero with its own 0xFF, and two zeros at the end |
| KeyLayout.TagLayout | crates/merutable/src/types/key.rs:309-323 | The eight bytes after the user key are 56 bits of inverted sequence number and the operation, big-endian |
| Keys.UserKeysPrefixFree | crates/merutable/src/types/key.rs:194-206 | No encoded primary key is a proper prefix of another |
| Keys.InternalKeyOrder | crates/merutable/src/types/key.rs:185-192 | Byte order of internal keys is user key ascending, sequence number descending |
| Keys.IkeyRoundTrip | crates/merutable/src/types/key.rs:116-163 | User key, sequence number and operation are recovered from the bytes |
| Keys.PkRoundTrip | crates/merutable/src/types/key.rs:327-391 | Decoding an encoded primary key succeeds, and gives the same values if and only if no column is Float or Double |
| KeyLayout.DecodeIff | crates/merutable/src/types/key.rs:327-391 | For keys without Boolean, Float and Double columns, a byte string decodes to a tuple if and only if it is that tuple's encoding |
| KeyLayout.DecodeErrors | crates/merutable/src/types/key.rs:327-391 | Bytes that do not decode as a key, of whatever columns, leftover bytes included, are reported as corruption |
| KeyLayout.UnescapeIff | crates/merutable/src/types/key.rs:409-446 | Unescaping returns a value and a length if and only if the bytes start with that value's escaped form of that length; everything else is corruption |
| Keys.FloatKeyNotRecovered | crates/merutable/src/types/key.rs:361-380 | The key 1.0 decodes to another number |
| Keys.UnescapeByteArray | crates/merutable/src/types/key.rs:409-446 | The unescaping loop, errors included |
| Keys.EmptyUserKey | crates/merutable/src/types/key.rs:194-268 | A primary key encodes to nothing if and only if all its columns are fixed-length of length 0 |
| Memtable.Get | crates/merutable/src/memtable/skiplist.rs:67-91 | The seek and the loop return the version of the key with the greatest sequence number not above the read sequence number |
| Memtable.MemtableIterator.NextEntry | crates/merutable/src/memtable/iterator.rs:46-75 | Yields each key once, ascending, with the version a lookup finds |
| Memtable.IterAll | crates/merutable/src/memtable/memtable.rs:136-147 | The collected iteration lists every key with what a lookup finds |
| Memtable.RecsSorted | crates/merutable/src/memtable/skiplist.rs:136-167 | The skip list's byte order is user key ascending, newest first |
| Memtable.InsertLookup | crates/merutable/src/memtable/skiplist.rs:55-62 | A version newer than all others becomes what lookups of its key find and changes no other lookup |
| Memtable.ApplyBatch | crates/merutable/src/memtable/memtable.rs:55-104 | One slot per record with consecutive sequence numbers |
| Memtable.AppliedRecs | crates/merutable/src/memtable/memtable.rs:55-104 | A batch adds exactly its records, numbered consecutively from the batch's sequence number, each with the operation and payload it was written with |
| Memtable.DropExact | crates/merutable/src/memtable/manager.rs:92-98 | Dropping removes exactly the flushed memtable if and only if no other has its label |
| Memtable.MemtableManager.GetEntry | crates/merutable/src/memtable/manager.rs:142-156 | Active memtable first, then the queue from the newest |
| Memtable.MemtableManager.Apply | crates/merutable/src/memtable/manager.rs:65-68 | Writes go to the active memtable |
| Memtable.MemtableManager.Rotate | crates/merutable/src/memtable/manager.rs:73-90 | Seals, queues and replaces the active memtable |
| Memtable.MemtableManager.DropFlushed | crates/merutable/src/memtable/manager.rs:92-98 | Keeps exactly the memtables with another label |
| Flush.RowsAreImage | crates/merutable/src/engine/flush.rs:61-146 | The rows of the flushed file are exactly the newest versions of the memtable's keys |
| Flush.RowsAreSorted | crates/merutable/src/engine/flush.rs:61-146 | They are sorted, valid and have different keys |
| Flush.BuildRows | crates/merutable/src/engine/flush.rs:71-148 | The loop returns one row per entry with its key, sequence number, operation and payload (for a tombstone the key columns alone), the first and last key and the least and greatest sequence number |
| Flush.RowsSaveNewest | crates/merutable/src/engine/flush.rs:61-146 | The rows are the newest record of every key of the memtable, tombstones included, each with the payload it was written with, and nothing else |
| Flush.DedupKeys | crates/merutable/src/engine/flush.rs:261-274 | The strictly ascending list of exactly the entries' keys |
| Flush.MemLookup | crates/merutable/src/memtable/skiplist.rs:67-91 | A lookup that sees everything finds the memtable's newest version of the key |
| FlushCommit.FlushSucceeds | crates/merutable/src/engine/flush.rs:261-315 | The committed version is the old one with the new file added and further rows of the memtable's keys masked |
| FlushCommit.FileSavesNewest | crates/merutable/src/engine/flush.rs:61-327 | The same for the file in the version after the commit |
| FlushCommit.FlushKeepsVersionOk | crates/merutable/src/iceberg/manifest.rs:168-196 | It is again sound: files readable, metadata right, L0 sequence ranges apart, deeper key ranges apart, shallower levels newer |
| FlushCommit.OldReadsKept | crates/merutable/src/iceberg/catalog.rs:391-441 | Readers of the version before the commit still read the same rows and masks |
| FlushCommit.FileCarried | crates/merutable/src/iceberg/manifest.rs:462-485 | Every file stays, with its mask grown by what the transaction marks |
| FlushCommit.FileOrigin | crates/merutable/src/iceberg/manifest.rs:462-512 | Every file of the new version is the added one or an old one |
| Manifest.Apply | crates/merutable/src/iceberg/manifest.rs:425-549 | Fails exactly if a deletion vector lacks a location or its file is removed too; otherwise the given id, the next sequence number, the predecessor as parent unless it is the empty snapshot 0, and the carried entries with ids assigned, then the added ones |
| Manifest.CarryForward | crates/merutable/src/iceberg/manifest.rs:458-485 | The loop over existing entries |
| Manifest.AssignIds | crates/merutable/src/iceberg/manifest.rs:487-497 | The loop that gives ids to entries without one |
| Manifest.NextEntry | crates/merutable/src/iceberg/manifest.rs:425-549 | An entry after a commit is a surviving one or an added one |
| Manifest.NextCarries | crates/merutable/src/iceberg/manifest.rs:462-485 | Every surviving entry is carried |
| Manifest.NextAdds | crates/merutable/src/iceberg/manifest.rs:499-512 | Every added file gets an entry |
| Manifest.NextLineage | crates/merutable/src/iceberg/manifest.rs:487-549 | A commit keeps live id ranges disjoint and below the counter, also when entries had no id, and starts where its predecessor stopped |
| Manifest.NextDense | crates/merutable/src/iceberg/manifest.rs:487-512 | A commit uses exactly as many row ids as it has rows to number: carried files without an id first, then the added files, each starting where the one before ended |
| Manifest.HistoryLineage | crates/merutable/src/iceberg/manifest.rs:487-549 | The same for every manifest of every history; the counter never falls |
| Manifest.RowIdsConserved | crates/merutable/src/iceberg/manifest.rs:487-549 | Over every history, once all files have ids the counter grows by exactly the rows added |
| Manifest.NewTableRowIds | crates/merutable/src/iceberg/manifest.rs:379-549 | In a new table the counter is the number of rows ever added |
| Manifest.RowIdsNeverReissued | crates/merutable/src/iceberg/manifest.rs:487-549 | Two entries of any two manifests of a history whose id ranges meet are the same file with the same ids |
| Manifest.SnapshotTransaction.AddDv | crates/merutable/src/iceberg/snapshot.rs:79-84 | Positions for a file join those already recorded; other files keep theirs |
| Manifest.SnapshotTransaction.AddFile | crates/merutable/src/iceberg/snapshot.rs:68-70 | Appends the file |
| Manifest.SnapshotTransaction.RemoveFile | crates/merutable/src/iceberg/snapshot.rs:73-75 | From then on exactly the entries that survived before and have another path survive |
| Manifest.RemovedIsGone | crates/merutable/src/iceberg/manifest.rs:462-485 | After the commit a removed file has no entry, unless the transaction adds it again |
| Versions.ToVersion | crates/merutable/src/iceberg/manifest.rs:168-196 | Groups live entries by level and sorts each level |
| Versions.VersionListsLive | crates/merutable/src/iceberg/manifest.rs:168-196 | The version lists exactly the live files, L0 newest first, deeper levels by ascending first key |
| Versions.VersionListsOnce | crates/merutable/src/iceberg/manifest.rs:168-196 | It lists no file twice and is named after the manifest's snapshot |
| Versions.FindFileForKey | crates/merutable/src/iceberg/version.rs:95-112 | Finds the file that covers the key if there is one, and only it |
| Versions.MaxLevel | crates/merutable/src/iceberg/version.rs:88-90 | The deepest level with files, or 0 |
| Catalog.IcebergCatalog.Commit | crates/merutable/src/iceberg/catalog.rs:302-534 | Succeeds exactly if every merge can be read and encoded, no Puffin write fails, no marked file is removed, and the metadata can be written; then the snapshot has the id the catalog was to give next, and manifest, counter and Puffin files are the specified ones; on failure, also with a Puffin file written in part, older Puffin files, manifest and counter are untouched |
| Catalog.IcebergCatalog.WriteDvs | crates/merutable/src/iceberg/catalog.rs:323-441 | The loop over deletion vectors, whatever the order and whichever write fails: which error, and that nothing but files of this snapshot is written |
| Catalog.IcebergCatalog.WriteDv | crates/merutable/src/iceberg/catalog.rs:328-440 | One merged deletion vector, its file and its location, or which error, and what a failed write left behind |
| Catalog.CommitKeepsOk | crates/merutable/src/iceberg/catalog.rs:302-534 | After a commit every live file's coordinates decode, and paths are unique |
| Catalog.SnapshotsChain | crates/merutable/src/iceberg/manifest.rs:515-549 | Over every history: a commit gets the next id, ids and sequence numbers ascend strictly from commit to commit, and the parent of a snapshot is the one committed just before it |
| Catalog.SnapshotsCount | crates/merutable/src/iceberg/catalog.rs:302-534 | Between any two moments of a history, ids and sequence numbers grow by exactly the number of commits; failed commits use none |
| Catalog.FirstSnapshot | crates/merutable/src/iceberg/manifest.rs:525-533 | The first commit after opening has the snapshot found there as its parent, or none in a new table |
| Catalog.NewTableCounts | crates/merutable/src/iceberg/manifest.rs:377-397 | In a new table the snapshot id and the sequence number are the number of commits so far |
| Catalog.LoadDvIs | crates/merutable/src/engine/read_path.rs:61-88 | A deletion vector loads as a bitmap if and only if there are no coordinates and it is empty, or all three are there, lie inside the Puffin file and the bytes decode to it; a missing Puffin file is an I/O error and all else corruption |
| Catalog.MergedAs | crates/merutable/src/iceberg/catalog.rs:328-389 | What a commit writes for a file: the bitmap its live entry's coordinates lead to, united with what the transaction marks, or the marks alone |
| LiveFiles.OpensIff | crates/merutable/src/engine/read_path.rs:40-90 | A file opens if and only if it is there and its deletion vector loads; which error it is otherwise |
| Catalog.CarriedMask | crates/merutable/src/iceberg/catalog.rs:328-389 | A carried file's bitmap is its old one united with what the transaction marks |
| Catalog.MaskAccumulates | crates/merutable/src/iceberg/catalog.rs:310-441 | Along every history a live file's bitmap is what it was plus everything committed for it since |
| Catalog.MaskIsUnionSinceAdded | crates/merutable/src/iceberg/catalog.rs:310-441 | Since it was added: exactly the union of all bitmaps committed for it |
| Catalog.OldSnapshotsDecode | crates/merutable/src/iceberg/catalog.rs:391-441 | Coordinates held by any older snapshot still decode to what they decoded to, because Puffin paths are never reused |
| Catalog.FailedKeepsOk | crates/merutable/src/iceberg/catalog.rs:525-533 | A failed commit leaves every live file's bitmap as it was |
| DeletionVector.BlobRoundTrip | crates/merutable/src/iceberg/deletion_vector.rs:145-235 | The recorded byte range of the Puffin file is the blob, and decoding it gives the bitmap |
| DeletionVector.EncodePuffin | crates/merutable/src/iceberg/deletion_vector.rs:145-235 | Fails exactly if a length does not fit; otherwise the file with the blob's offset and length |
| DeletionVector.AcceptedIff | crates/merutable/src/iceberg/deletion_vector.rs:391-468 | A blob is accepted as a bitmap if and only if its length field counts the rest, magic and checksum are right, and the data is no bitmap at all or one under key 0 that deserializes to it; everything else is corruption |
| DeletionVector.BlobLayout | crates/merutable/src/iceberg/deletion_vector.rs:145-235 | Length, magic, bitmap count, key, data and checksum stand where the format puts them |
| DeletionVector.PuffinLayout | crates/merutable/src/iceberg/deletion_vector.rs:145-235 | The file is magic, blob, footer, the footer's length and magic again |
| DeletionVector.EncodableIs | crates/merutable/src/iceberg/deletion_vector.rs:145-235 | A bitmap can be written if and only if its serialized form plus 20 bytes fits in 32 bits and the footer in 31 |
| RowCache.InvalidationHolds | crates/merutable/src/engine/cache.rs:95-143 | In every interleaving of bumps, pops, checks, puts and evictions: once an invalidation has returned, an entry for an affected key was inserted with a generation captured after that call's bump |
| RowCache.StepProtects | crates/merutable/src/engine/cache.rs:109-143 | Each micro-step keeps it |
| RowCache.TrimProtects | crates/merutable/src/engine/cache.rs:109-115 | Evicting any set of keys is a sequence of evictions of the state machine and keeps the protection |
| RowCache.LruRowCache.InsertIfFresh | crates/merutable/src/engine/cache.rs:109-115 | A generation that is not the current one leaves the cache as it is; otherwise the call is a check, a put and evictions of the state machine, after which the key has the entry, and the protection of returned invalidations is kept |
| RowCache.LruRowCache.Invalidate | crates/merutable/src/engine/cache.rs:129-133 | The call is a bump and a pop of the state machine: afterwards the key is gone, other keys keep their entries, and from then on the call is one of those `RowCache.InvalidationHolds` protects |
| RowCache.LruRowCache.Clear | crates/merutable/src/engine/cache.rs:139-143 | The same for all keys at once |
| RowCache.LruRowCache.SnapshotGeneration | crates/merutable/src/engine/cache.rs:95-97 | A generation no less than that of any invalidation that has returned, and with which an insertion would pass its check now |
| StaleCache.StaleCacheIsReachable | crates/merutable/src/engine/read_path.rs:95-134 | A run in which a write is applied, invalidates and returns after a lookup fixed its read sequence number; the lookup's memtable check misses it, the generation captured right after the check is the new one, and the old row it caches is served once the write is flushed and dropped, with no write left to remove it |
| StaleCache.CaptureWindowIsSharp | crates/merutable/src/engine/read_path.rs:95-158 | All runs in which captures come at most d bumps after the read sequence number is fixed are free of old cached rows whenever no write of the key is in progress, if and only if d is 0 |
| StaleCache.PromptRunsSettle | crates/merutable/src/engine/read_path.rs:95-158 | The one half: without a bump between read sequence number and capture, a cached row older than a returned write has a write still to invalidate it |
| StaleCache.ReadWindowIsSharp | crates/merutable/src/engine/read_path.rs:95-158 | All runs in which versions are taken with at most e writes above the read sequence number never cache a row older than a returned write, not even in passing, if and only if e is 0 |
| StaleCache.SteadyRunsStayFresh | crates/merutable/src/engine/read_path.rs:95-158 | The one half: without such a write, no cached row is ever older than a write that has returned |
| StaleCache.OldRowCachedInPassing | crates/merutable/src/engine/flush.rs:61-146 | Capturing in time is not enough for the latter: a run without a late capture that caches a row older than a returned write, because a flush saved only the newest of two versions, until the newer write invalidates |
| FileGc.RunsAreSafe | crates/merutable/src/engine/engine.rs:1055-1209 | In every run of pins, unpins, installs, enqueues and any number of overlapping sweeps, no file of the installed or a pinned version is deleted, if files are queued with a snapshot no older than any that lists them and each sweep acts within the grace period or on current pins |
| FileGc.SafetyIsSharp | crates/merutable/src/engine/engine.rs:1096-1141 | All runs in which the recorded snapshot is at most `lag` too old and sweeps act at most `delay` after reading the pins are safe if and only if `lag` is 0 and `delay` is less than the grace period |
| FileGc.LateSweepIsUnsafe | crates/merutable/src/engine/engine.rs:1096-1099 | For every grace period, a run with the right snapshots recorded in which a sweep that acts a grace period after it read the pins deletes a file under a reader |
| FileGc.BaseSnapshotIsUnsafe | crates/merutable/src/engine/compaction/job.rs:671-691 | For every grace period, a run whose sweeps act at once in which a file queued with the snapshot a compaction was based on, one older than the last that lists it, is deleted under a reader |
| FileGc.CollectIsSafe | crates/merutable/src/engine/engine.rs:1101-1116 | No entry a prompt sweep deletes is listed by the installed or a pinned snapshot |
| FileGc.Sweep | crates/merutable/src/engine/engine.rs:1099-1141 | The loop deletes exactly the entries whose last listing snapshot is before every pinned one and whose grace period is over, and keeps the others, once each and in order |
| FileGc.Collector.Pin | crates/merutable/src/engine/engine.rs:1164-1202 | Takes the pin step and keeps the invariant; the installed snapshot is pinned afterwards |
| FileGc.Collector.Unpin | crates/merutable/src/engine/engine.rs:182-192 | Takes the unpin step and keeps the invariant |
| FileGc.PinUnpin | crates/merutable/src/engine/engine.rs:182-192 | Unpinning what was pinned restores the pins |
| FileGc.Collector.Enqueue | crates/merutable/src/engine/engine.rs:1055-1081 | Takes the enqueue step, and keeps the invariant if the recorded snapshot is no older than any that lists the file |
| FileGc.Collector.MinPinned | crates/merutable/src/engine/engine.rs:1207-1209 | The least pinned snapshot |
| FileGc.Collector.GcPendingDeletions | crates/merutable/src/engine/engine.rs:1096-1146 | Exactly the queued files that no pinned snapshot can list and whose grace period is over are deleted, the other entries stay in order; the call is the two steps of a sweep with nothing in between, and afterwards no file of the installed or a pinned version is deleted |
| GcProgress.DeletedIff | crates/merutable/src/engine/engine.rs:1055-1146 | Over every run of any overlapping sweeps: the files deleted are exactly those that were queued and met a sweep that read the pins when all were later than the recorded snapshot and acted when the grace period was over |
| GcProgress.SweepCollects | crates/merutable/src/engine/engine.rs:1096-1146 | So a file no pinned snapshot lists does not stay: the first such sweep deletes it |
| WritePath.BatchesAreAtomic | crates/merutable/src/engine/write_path.rs:195-237 | At every micro-step of every run: no two stored records share a sequence number, and the records a reader at the visible sequence number sees are exactly those of completed batches |
| WritePath.VisibleIsCompleted | crates/merutable/src/engine/write_path.rs:226-234 | The second half for one state |
| WritePath.InsertIsNew | crates/merutable/src/memtable/memtable.rs:61-104 | The record inserted next has a sequence number no stored record has, so it replaces nothing |
| WritePath.LabelGivenTwice | crates/merutable/src/engine/write_path.rs:195-237 | A rotation between a batch's reservation and its insert lets the next rotation give out the same label again, although the memtable is not empty |

## Left out

- The write-ahead log, recovery and its collection: opening is modelled for an
  empty log.
- Compaction (picking, merging, level reservations) as a step of the engine: its
  commits go through the same catalog, and its effect on file collection is in
  `FileGc`, but runs of the engine consist of writes and flushes.
- Reads at older sequence numbers and the change feed: flushes keep one version
  per key.
- Crash consistency of the catalog: order of fsync and rename. A failing
  metadata write is modelled, a crash is not.
- The Parquet encoding itself, Arrow, Avro, JSON and protobuf forms, exports,
  the mirror worker, schema evolution, metrics, stalls and back-pressure.
- 64-bit wrap-around of sequence numbers and row ids: sequence numbers are
  bounded by the 56-bit maximum, row ids are unbounded.
- SIMD variants of the bloom probe.
- The union check in `Catalog.IcebergCatalog.Commit` that a merged bitmap has
  not shrunk: a union of sets never does.
- EngineRuns.OpenedOk: opening with records in the log is not modelled; the
  counter is then taken from the log as well.
- Engine.MeruEngine.constructor: as above, for an empty log.
- DvResolve.Resolve: a blob offset that is negative is reported after a missing
  Puffin file, as the read path does; the resolver's own loader looks at the
  offset first.
- Engine.MeruEngine.PointLookup: damaged or missing files are excluded by the
  engine's invariant; `ReadPath.DiskLookup` states what they lead to. The call
  is one atomic step here; `LookupWindow` treats steps between its parts.
- Engine.MeruEngine.Scan: as `RangeScan`, with encoded bounds.
- Engine.MeruEngine.RangeScan: damaged or missing files are excluded by the
  engine's invariant; `ReadPath.HarvestDisk` states what they lead to. The scan
  is one atomic step here; `EarlyVersion` treats steps between its parts.
