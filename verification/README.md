# Verified model of the LSM key/value engine

The engine is a crash-safe log-structured merge tree that keeps several versions
of a key. This project models its core in Dafny and proves one claim spread over
many parts: whatever writes, flushes, compactions, snapshots and crashes happen, a
read returns what a plain append-only history of records would return. Where the
code does not give that, the exact condition under which it does is proved, and a
concrete run shows the failure.

`dafny verify dfyconfig.toml` checks the whole project.

## How it is laid out

- `Records`, `Layers`, `Retention`: records and their order; what a stack of layers
  answers; what a compaction may forget. `Lookup` scans a history from its end and
  is the reference every read is compared with.
- `Codec`, `Header`, `Framing`, `Wal`, `Manifest`: the byte formats, replay of any
  cut of a log or a manifest, logs with a torn tail, generation rollover. `Formats`
  gives every format byte by byte; `Versions` the files of earlier builds.
- `MemTables` (`MemTable.dfy`), `Ranges`: the versioned MemTable.
- `Bloom`, `Blocks`, `SsTableFile`, `SsTable`: table files from records to bytes and
  back, point lookup, lazy scan, block cache. `ReaderStack`: lookups, scans and merges
  through the readers of a whole live set.
- `Compaction`, `Scan`: the heap merge with retention and peeling, and the k-way
  range scan, as the loops they are.
- `Engine`: the protocol as a state machine. A step is one section of `db.rs` that
  runs under a lock, or one effect other threads or a crash can observe: moving the
  counter, a filesystem call of a flush or of a compaction. Steps of different
  threads interleave freely. The state carries a history variable.
- `EngineSafety`, `PointReads`, `EngineScan`, `Movement`, `ScanMoments`, `ScanAtomicity`:
  the invariant, kept by every step, and what it says about gets, snapshots, batches
  and scans over whole runs from any state that satisfies it.
- `Splicing`, `Durability`, `Recovery`, `Crash`, `CrashRuns`: what is on disk at
  every moment, what a crash can leave of it byte by byte, what opening makes of
  that, and histories with any number of crashes. `Histories` carries the results
  about runs over to databases reopened after crashes.
- `Settling`, `Checkpoint`, `CheckpointCuts`: point-in-time copies, finished and
  interrupted.
- `Forgetting`, `LateSnapshots`: horizons registered later than they were read, or
  read while a write is under way.
- `Failures`, `TornFailures`, `ScanFailures`: concrete runs in which something is lost.
- `Picker`, `DbFacts`, `Opening`, `Database` (`Db.dfy`): the handle as an object with
  the source's fields. Each locked section is a method proved to take one step of
  the state machine, so the results about runs hold of the object.

## What is assumed

- Appends are durable once acknowledged (`SyncMode::Durable`); rename is atomic; an
  append interrupted by a crash leaves any prefix of its bytes.
- Checksums and hashes are arbitrary functions. No result needs them to be good,
  with one hypothesis about a single value: where a log already has a torn tail, a
  crash is considered if the bytes behind it do not happen to verify as the frame
  that was torn. `TornTailHarmless` proves this of the tails crashes leave, and
  `TailIsLost` says what replay does either way. The compressor is any function with
  an inverse and no empty output.
- Lengths fit the 32 and 64 bit fields they are written to, and sequence numbers and
  table ids do not run out. Arithmetic is otherwise unbounded.
- In runs, the eight header bytes of the log and the first edit of the first manifest
  are durable before anything else happens. `HeaderTorn` and `FirstOpen` say what a
  crash inside either leads to.

## What turned out not to hold

- A crash between the rename of a merged table and the manifest edits that drop its
  inputs can bring a deleted key back. `CrashRead` gives the exact condition,
  `DeletedKeyComesBack` a run.
- A crash that leaves only the first of a flush's three manifest edits makes the next
  table reuse a live id. `CrashIds` gives the exact condition, `IdHandedOutAgain` a run,
  and `ReusedIdLosesEverything` what it costs: one flush, one compaction and one restart
  later the database is empty.
- Opening for append keeps a torn tail. Writes acknowledged behind it are lost at the
  next crash (`SecondCrashLosesWrite`), and one that has reached a table can be hidden
  by an older version from before the tail (`LateWriteHidden`). `CrashRead` gives the
  exact condition for each key; `CrashLayersOk` and `CrashHistoryOk` those for the
  order of the layers and for the counter; `CrashKeeps` puts them together.
  `OrderlyCrash` says where a crash has to fall to cost nothing, with no mention of
  what is read afterwards.
- A crash inside the first edit of a fresh manifest leaves a directory that no later
  open accepts. `FirstOpen` says for which cuts.
- A snapshot takes no lock a writer holds. Taken after a write has its numbers and
  before it is in, it shows the key changing (`SnapshotSeesLaterWrite`).
  `SnapshotRepeatable` gives the exact condition.
- A snapshot whose horizon is registered after a merge has read the lowest horizon can
  lose versions (`SnapshotLosesValue`). `LateSnapshotReads` gives the exact condition.
- A scan copies its sources at three moments and need not show any one of them
  (`ScanTearsApart`, `FrozenTearsApart`). `ScanAtMoment` gives the exact condition for
  the last freeze its copies have seen: none of its keys is held with a value by an
  older copy and absent from the newer ones. `ScanNoFreeze` and `ScanNoSplice` say when
  that cannot happen, and `ScanThroughSnapshot` that it never matters to a snapshot
  whose writes are all in.
- An interrupted checkpoint can open as an empty or a partial database.
  `CheckpointInterrupted` and `CheckpointUnnamed` say what each cut opens to.
- With a compaction threshold below two, draining never ends once there is a table
  (`LowThreshold`, `DrainNeverEnds`).
- README.md:178-183 of the repository says the MemTable keeps one version of a key;
  src/memtable.rs keeps every version, and so does the model.

## Model

| member | source | states |
|---|---|---|
| EngineSafety.ReadsMatchHistory | src/db.rs:729-751 | in every state of every run from a healthy state, a layered read at the latest bound and at every live snapshot equals the newest record below that bound in the history of writes |
| EngineSafety.StepInv | src/db.rs:882-1046 | each of the seventeen steps keeps the whole invariant: history, layer order, reads, ids, flush and compaction bookkeeping |
| EngineSafety.WriteInv | src/db.rs:686-724 | appending a batch and inserting it keeps every live read equal to the longer history |
| EngineSafety.ReserveInv | src/db.rs:698-700 | moving the counter ahead of a batch keeps the whole invariant |
| EngineSafety.FreezeInv | src/db.rs:888-897 | swapping in a fresh MemTable changes no read |
| EngineSafety.PublishInv | src/db.rs:922-930 | while the frozen MemTable and its table are both there, the doubled layer changes no read and keeps the layers in order |
| EngineSafety.ClearFrozenInv | src/db.rs:953 | dropping the frozen MemTable after publication loses nothing |
| EngineSafety.PickInv | src/db.rs:973-986 | tombstones may be dropped exactly when the run starts at the oldest table |
| EngineSafety.MergeRunInv | src/db.rs:988-1005 | the horizon read once covers every live bound on the run |
| EngineSafety.SnapshotMerge | src/db.rs:988-990 | a snapshot taken while a merge runs is covered too: the horizon stays a valid lower bound for the whole merge |
| EngineSafety.SpliceInv | src/db.rs:1023-1036 | replacing the run by its merge keeps layers, ids and every live read, however many flushes have appended meanwhile |
| EngineSafety.SpliceExact | src/db.rs:1025-1036 | ids ascend by position, so the run is found as the contiguous block that ends at the highest id of the run |
| EngineSafety.TakeSnapshotInv | src/db.rs:597-604 | a new horizon covers all numbers given out so far, falls among no reserved ones, and shows the history |
| Layers.GetIsNewest | src/db.rs:735-750 | in a layered stack the first hit is the newest visible version of all layers |
| Layers.LookupIsNewest | src/db.rs:729-751 | the reference lookup is the newest visible record of a history in number order |
| PointReads.GetLinearizes | src/db.rs:735-750 | in any run from a healthy state, a get that looks at the active MemTable, the frozen one and the tables at three different moments, with any steps in between, returns the value of some instant between the first and the last look |
| PointReads.SnapshotRepeatable | src/db.rs:597-612 | reads through a live snapshot show the moment it was taken with the batch whose numbers were then reserved; they equal the latest reads of that moment if and only if that batch does not give the key another value |
| PointReads.SnapshotRepeats | src/db.rs:606-612 | with nothing reserved when it is taken, reads through a live snapshot never change |
| PointReads.BatchesWholeForSnapshots | src/db.rs:698-712 | over runs from any healthy state, each live horizon has all of a batch below it or none of it |
| PointReads.VersionsUnique | src/db.rs:668 | over runs from any healthy state, equal numbers mean the same record across all layers, and the next number is above all of them |
| EngineScan.ScanMatchesGets | src/db.rs:754-800 | in every state of a run from a healthy state, a scan of that state yields, strictly ascending, the first `limit` keys of the range that a get finds, each with the value the get gives, and leaves none out |
| EngineScan.ScanMergeable | src/db.rs:775-790 | the sources of a scan are sorted and agree on records |
| ScanMoments.ScanLinearizes | src/db.rs:772-800 | a scan that copies the active MemTable, the frozen one and the table list at three moments is linearizable key by key: each pair was current at some instant in between, and a key of the range it leaves out was absent at one, or lies beyond the limit |
| ScanAtomicity.ScanKeyMoment | src/db.rs:772-800 | for every key, whatever runs between the three copies, the scan shows the last freeze its copies have seen (the first copy's moment if none) if and only if the key is not revived: held with a value by an older copy while the newer copies hold no version of it; a revived key had been deleted by that moment, a splice fell in between, and it shows the moment of the older copy |
| ScanAtomicity.ScanAtMoment | src/db.rs:772-800 | the whole scan, with its range, order and limit, is an exact scan of that moment if and only if none of its pairs is revived |
| ScanAtomicity.ScanNoFreeze | src/db.rs:774-782 | with no freeze before the second copy and none behind it published before the third, a scan is exactly one of the first copy's moment, whatever is written, published, cleared or spliced |
| ScanAtomicity.ScanNoSplice | src/db.rs:774-782 | with nothing spliced between the copies a scan shows one moment |
| ScanAtomicity.ScanThroughSnapshot | src/db.rs:481-489 | a scan through a live snapshot whose writes are all in is exactly one of that moment, whatever runs while it copies |
| ScanFailures.ScanTearsApart | src/db.rs:774-782 | a run in which a scan shows two keys that were never there together, one from the first copy |
| ScanFailures.FrozenTearsApart | src/db.rs:774-782 | the same with a key the first copy does not hold, from the frozen one |
| Scan.ScanSources | src/scan.rs:95-132 | the merge over any sorted sources yields exactly the first `limit` live keys in range, newest visible version each, tombstones skipped; a source that fails within the range makes the scan fail unless the limit is reached before it is used up, and nothing else does |
| Scan.Merge.Next | src/scan.rs:95-132 | each call yields the least key still to be emitted with its live value, or ends with none left and no failure unreported; an error is one whose turn has come |
| Scan.NextSource | src/scan.rs:65-89 | the source picked holds the least head by key, then newest version |
| Records.LessIsByteOrder | src/memtable.rs:29 | the key order is that of byte vectors: two keys part at the first byte that differs, and a prefix comes before everything that extends it |
| Ranges.RangeEnds | src/memtable.rs:89-107 | a range holds its start key and all above it, and stops short of its end key, in that order |
| Retention.SpliceKeepsReads | src/compaction.rs:96-124 | replacing a run by its compaction changes no read at a bound at or above the horizon or above the whole run; a peeled tombstone counts as absence when nothing is older |
| Retention.CompactionNewest | src/compaction.rs:108-124 | at such a bound the merged run gives the record its inputs gave, or nothing where they gave a peeled tombstone |
| Retention.SpliceKeepsLayers | src/compaction.rs:108-124 | the stack stays layered with the merged run in place and any part of the stale inputs still under it |
| Retention.RetainedIsShown | src/compaction.rs:108-117 | what is retained is exactly what some read at or above the horizon is answered by |
| Retention.KeptIsShown | src/compaction.rs:118-124 | and where tombstones may go, only what has a value at or beneath it that such a read shows |
| Compaction.Compact | src/compaction.rs:59-130 | for any sorted inputs the output is sorted, holds exactly the retained records less the peeled tombstones, and none more often than the inputs do |
| Compaction.MergeStream | src/compaction.rs:74-94 | the heap merge yields every input record, with multiplicity, in key order |
| Compaction.PopMin | src/compaction.rs:80-94 | the input chosen has the head that is least by key, then by position of the input; taking it off and refilling is done by the caller |
| Compaction.CompactGroup | src/compaction.rs:100-124 | of one key: exactly the versions a snapshot at or above the horizon can see, the newest below it, and no trailing tombstones when they may go |
| Compaction.KeepVersions | src/compaction.rs:108-117 | versions at or above the horizon and the first below it, in order |
| Compaction.PeelTombstones | src/compaction.rs:118-124 | what is peeled is exactly the tombstones with only tombstones under them |
| Durability.StepDisk | src/db.rs:899-953 | each step keeps what recovery relies on: log, manifest, counters and files |
| Durability.RewriteLogDisk | src/db.rs:940-952 | the rewritten log holds exactly what is buffered and in no published table |
| Durability.LogTableDisk | src/db.rs:913-920 | the three edits make the manifest name the new table and both counters |
| Durability.DeleteInputsDisk | src/db.rs:1015-1021 | the edits drop exactly the stale inputs from the manifest |
| Durability.UnlinkDisk | src/db.rs:1038-1043 | unlinking a stale input, one file at a time, removes no file the manifest names |
| Recovery.RecoverOpens | src/db.rs:298-385 | opening never fails on what a crash of a healthy database leaves, wherever it cuts the log and the manifest and whether or not the log already had a torn tail, and what it opens is given exactly |
| Recovery.OpenExact | src/db.rs:338-346 | tables opened by ascending id come back in list order |
| Recovery.RecoverExact | src/db.rs:298-385 | on any directory: opening fails if and only if the manifest does not replay, a table it names has no file, or the log does not replay; else the tables, files, counters and MemTable it gives |
| Recovery.DirReplays | src/manifest.rs:266-271 | a directory opens to what the generation `CURRENT` names replays to, a missing one as empty |
| Recovery.TablesReopen | src/db.rs:318-346 | at every crash point each table the manifest names has its file, and reclaiming the rest loses nothing |
| Recovery.RecoverAgain | src/db.rs:313-361 | a crash while opening, at any point of the manifest rollover, of the reclaiming and of the header written into an empty log, costs nothing: opening again gives the same |
| Recovery.FirstOpen | src/db.rs:390-413 | a crash in the first edit of a fresh manifest: refused for good exactly when the cut lies inside the edit, otherwise an empty database |
| Crash.CrashRead | src/db.rs:1007-1021 | after any crash, also on a log with a torn tail, a read gives the history, with the batch in flight whole or not at all, if and only if the key is not mistaken: not resurrected by a peeled tombstone, and, if last written behind the tail, with the same value where recovery falls back to |
| Crash.CrashIds | src/manifest.rs:178-188 | after a crash the id counter exceeds every live id if and only if the flush batch was not torn behind its first edit |
| Crash.CrashLayersOk | src/db.rs:351-357 | the recovered layers are in order, although the replayed log may repeat the newest table, if and only if no late write in a named table has an older version of its key before the torn tail |
| Crash.CrashHistoryOk | src/db.rs:353-357 | the recovered counter exceeds every acknowledged number if and only if the durable one is past every late write |
| Crash.CrashKeeps | src/db.rs:298-385 | a crash leaves a database that satisfies the whole invariant, in memory and on disk, if and only if it is harmless: ids, counter, layer order and every read, each told before the restart |
| Crash.CrashView | src/db.rs:298-385 | every read of the recovered database is the history's if and only if no key is mistaken |
| Crash.NothingExposed | src/compaction.rs:118-124 | no key is resurrected unless a peeled tombstone is exposed: a merge of the oldest tables peeled one, its output is in place and the manifest still names a stale input |
| Crash.OrderlyHarmless | src/db.rs:882-1046 | a crash is harmless if it is orderly, told by where it falls: the log frame-aligned or with nothing behind its torn tail, a flush's edits not torn behind the first, no peeled tombstone exposed |
| Crash.OrderlyCrash | src/db.rs:298-385 | an orderly crash, inside a write, a flush or a compaction, wherever it cuts log and manifest, leaves a healthy database whose every read is answered by all that was acknowledged and the batch in flight, whole or not at all |
| CrashRuns.AcknowledgedWritesSurvive | src/db.rs:660-724 | over histories with any number of harmless crashes, torn logs included, every write acknowledged at any moment stays in the history and every read is answered by it |
| CrashRuns.OrderlyCrashesLoseNothing | src/db.rs:660-724 | the same over histories whose crashes are orderly, with nothing about reads among the hypotheses |
| CrashRuns.EventHistory | src/db.rs:660-724 | nothing acknowledged leaves the history; a crash adds the batch in flight whole or nothing, and ends every snapshot |
| CrashRuns.TornTailHarmless | src/wal.rs:77-114 | after any crash a second one before the next write is possible and harmless, torn tail or not |
| Histories.GetsLinearize | src/db.rs:735-750 | gets linearize between any two crashes of a history |
| Histories.ScansLinearize | src/db.rs:772-800 | so do scans, key by key |
| Histories.ScansShowMoment | src/db.rs:772-800 | the exact condition for a scan to show one moment, in a history |
| Histories.ScansMatchGets | src/db.rs:754-800 | a scan of one state is ascending, in range and within the limit, agrees with gets and leaves none out, in every state of a history |
| Histories.SnapshotsRepeat | src/db.rs:597-612 | a snapshot of a reopened database shows the moment it was taken and the batch then reserved, and repeats the latest reads if and only if that batch does not overwrite them |
| Histories.LateHorizons | src/db.rs:597-604 | the exact condition for a late horizon, in a history |
| Histories.CheckpointsArePointsInTime | src/db.rs:814-850 | a checkpoint of a reopened database is a healthy point-in-time copy |
| Histories.VersionsStayUnique | src/db.rs:668 | numbers identify records across all layers and across restarts |
| Histories.NumbersAreFresh | src/db.rs:351-357 | what is written at any moment has numbers above all that was acknowledged before, whatever crashes came between |
| Histories.BatchesStayWhole | src/db.rs:698-712 | a batch is on one side of every horizon live later, in a history |
| Failures.DeletedKeyComesBack | src/db.rs:1007-1021 | a reachable state and a crash after which a deleted key is readable again |
| Failures.IdHandedOutAgain | src/db.rs:913-920 | a reachable state and a crash after which the next id is that of a live table |
| Failures.ReusedIdLosesEverything | src/db.rs:1015-1021 | a crash that reuses an id, one flush and one compaction later, and a restart: everything acknowledged is gone |
| TornFailures.SecondCrashLosesWrite | src/wal.rs:77-114 | a reachable state, a crash inside a frame, an acknowledged write, and a second crash after which the key is gone |
| TornFailures.LateWriteHidden | src/wal.rs:77-114 | a write behind the tail that has reached a named table is hidden by the older version replay puts on top |
| Forgetting.SpliceForgets | src/compaction.rs:96-117 | replacing a run by its compaction changes a read, at any bound whatever, exactly when nothing above answers it, a younger version below the horizon stands over the answer, and what lies beneath differs |
| LateSnapshots.SpliceReads | src/db.rs:986-990 | a splice changes a read exactly then, for bounds registered or not |
| LateSnapshots.StepReads | src/db.rs:882-1046 | a step changes a read, at any bound, if and only if it is a splice that forgets it or a write of the key below the bound with another value |
| LateSnapshots.LateSnapshotReads | src/db.rs:597-604 | a horizon read off the counter shows that moment at every state up to a later one, whenever it is registered, if and only if no step on the way is a splice that forgets the read or the write of the batch then reserved with another value for the key |
| LateSnapshots.ReadsRepeat | src/db.rs:729-751 | over a run from any healthy state, reads at any bound repeat if and only if no step on the way changes the answer |
| LateSnapshots.LaterWrites | src/db.rs:686-724 | a write at or above the bound never does |
| LateSnapshots.SnapshotSeesLaterWrite | src/db.rs:698-712 | a run in which a snapshot taken between the reservation and the insert of a write changes under its reader |
| LateSnapshots.RegisteredInTime | src/db.rs:804-811 | a merge that starts after registration forgets nothing of it |
| LateSnapshots.SnapshotLosesValue | src/db.rs:598-599 | a run in which a horizon is read, a merge runs, and the value visible at the horizon is gone |
| Checkpoint.CheckpointIsPointInTime | src/db.rs:814-850 | in any run from a healthy state, whatever runs between a checkpoint's flush, its links and its look at the counters, the copy opens to a healthy database that shows one prefix of the history with everything acknowledged before the flush in it |
| Checkpoint.CheckpointOpens | src/db.rs:829-846 | the directory opens to the live tables and the counters read later |
| Checkpoint.CheckpointOk | src/db.rs:829-846 | the opened checkpoint satisfies the whole invariant |
| CheckpointCuts.CheckpointInterrupted | src/manifest.rs:127-137 | what a checkpoint opens to with its manifest cut anywhere behind the header: nothing at the header, refused inside the first edit, then the oldest tables only; it is the checkpoint if and only if the manifest is whole |
| CheckpointCuts.CheckpointUnnamed | src/db.rs:390-413 | interrupted before there is a manifest it opens to the tables linked so far with a counter of zero, which no history makes healthy unless they are empty |
| Settling.StepSettles | src/db.rs:882-1046 | the prefix of the history that stands below the active MemTable never shrinks, and a freeze makes it the whole history |
| Settling.RunSettles | src/db.rs:882-1046 | nor does it shrink over a run |
| Database.Db.constructor | src/db.rs:298-385 | a handle on a fresh directory is in the initial state and has the limits it was given |
| Database.Db.Reserve | src/db.rs:698-700 | takes the reservation step and gives the first number |
| Database.Db.Apply | src/db.rs:701-717 | one frame and one MemTable insert a record: takes the write step |
| Database.Db.WriteBatch | src/db.rs:686-724 | an empty batch does nothing; any other is a reservation and one write step, its frame and its records published as a unit, and the caller is told that the MemTable is full if and only if its encoded records reach the limit |
| Database.Db.GetAt | src/db.rs:729-751 | the three-stage lookup, its table stage run on the readers of the live tables, equals the layered read, and the history at every live bound |
| ReaderStack.SearchTables | src/db.rs:744-750 | asking the readers from the newest table to the oldest and stopping at the first hit is the layered read of the live set |
| ReaderStack.ScanReaders | src/db.rs:784-792 | walking each reader's lazy scan to its end gives the records at or above the start key, table by table |
| ReaderStack.CompactReaders | src/compaction.rs:59-130 | a merge fed by full walks over its input readers is the merge of their records |
| ReaderStack.WriteAndOpen | src/sstable/mod.rs:44-226 | writing records and opening the bytes gives a reader over the same records |
| Database.Db.ScanAt | src/db.rs:754-800 | the merge over the ranges of the MemTables and over a scan of each live table through its reader is an exact scan of the state |
| Database.Db.TakeSnapshot | src/db.rs:597-604 | registers the counter as a horizon, counting references, also while a write has its numbers and is not in |
| Database.Db.DropSnapshot | src/db.rs:621-631 | gives back one reference and keeps the invariant |
| Database.Db.MinSnapshot | src/db.rs:804-811 | the lowest live horizon, or the largest number when there is none |
| Database.Db.Freeze | src/db.rs:888-897 | takes the freeze step |
| Database.Db.WriteTable | src/db.rs:899-911 | takes the step that writes the frozen MemTable under a new id |
| Database.Db.LogTable | src/db.rs:913-920 | takes the manifest step, byte for byte |
| Database.Db.Publish | src/db.rs:922-930 | takes the publish step |
| Database.Db.RewriteLog | src/db.rs:940-952 | the log built in a loop, one record a frame, is the log of the rewrite step |
| Database.Db.ClearFrozen | src/db.rs:953 | takes the last step of a flush |
| Database.Db.FlushTable | src/db.rs:899-930 | takes the steps that write, name and publish the frozen MemTable |
| Database.Db.FlushInner | src/db.rs:882-958 | nothing on an empty MemTable; else the buffered records are the newest table, the log is empty, and history, reads and snapshots are as before |
| Database.Db.MergeRun | src/db.rs:988-1005 | takes the merge step with the horizon read once and the output of the real merge |
| Database.Db.RenameOut | src/db.rs:1007-1013 | takes the rename step under the id of the newest input |
| Database.Db.DeleteInputs | src/db.rs:1015-1021 | takes the manifest step that drops the other inputs |
| Database.Db.SpliceRun | src/db.rs:1023-1036 | the search for the run cannot fail nor its start underflow, and the result is the splice step |
| Database.Db.Unlink | src/db.rs:1038-1043 | removes the stale files one by one, each a step, and no other |
| Database.Db.PublishRun | src/db.rs:1007-1043 | what a compaction does under the flush lock: its steps in order, and then nothing in the background |
| Database.Db.CompactStep | src/db.rs:970-1046 | `false` and nothing changed exactly when no run qualifies; else the first maximal run of one size tier that reaches the threshold, by the sizes of the tables before the call, has become one table and nothing else a reader or writer sees has changed |
| DbFacts.CompactsOne | src/db.rs:1068-1094 | there is only one such run |
| Database.Db.Drain | src/db.rs:497-501 | with a threshold of two or more the loop ends, with no qualifying run left, by merges of the run to merge one after the other |
| Database.Db.Flush | src/db.rs:497-501 | the flush and then such merges: nothing is buffered, no run qualifies, and the history is the same |
| Database.Db.Maintain | src/db.rs:536-542 | a flush, with its whole effect, if and only if something is frozen or the buffered records reach the limit; else the merge of the run to merge, or `false` with nothing changed |
| Database.Db.MaintainAll | src/db.rs:533-542 | calling it until it says `false` ends with the buffer under its limit and no run to merge, after one flush if one was due and none otherwise |
| Database.Db.Checkpoint | src/db.rs:814-850 | refuses a directory that lists anything; else the copy opens to a healthy database with the same history |
| Database.Db.Reopen | src/db.rs:298-385 | after any crash, the handle built from what recovery opened is in the recovered state, its log file byte for byte included, and valid if and only if the crash was harmless |
| Database.OpenAfterCrash | src/db.rs:298-385 | after any crash opening succeeds and gives a handle on the acknowledged history and the batch in flight whole or not at all, valid if and only if the crash was harmless |
| DbFacts.CompactEffect | src/db.rs:970-1046 | the six sections of a compaction come to one merged run in place of its inputs |
| DbFacts.FlushEffect | src/db.rs:882-958 | the six sections of a flush come to one new table |
| DbFacts.RunStillThere | src/db.rs:1025-1031 | the position the splice looks for exists whatever flushes ran |
| DbFacts.CrashWal | src/wal.rs:77-114 | the log a crash leaves still says its version and is byte for byte the log of the recovered state |
| Opening.Assemble | src/db.rs:298-385 | on any bytes whatever, opening gives the value or the error of the recovery specification |
| Opening.Reclaim | src/db.rs:318-336 | exactly the table files the manifest names are kept |
| Opening.Rebuild | src/db.rs:351-357 | the replayed MemTable, and a counter above the durable one and every replayed record |
| Picker.PickCompaction | src/db.rs:1068-1094 | the first maximal run of one size tier that reaches the threshold; none exactly when no adjacent tables of one tier do |
| Picker.TierBounds | src/db.rs:1078-1080 | tiers are powers of two |
| Picker.LowThreshold | src/db.rs:1073-1093 | below a threshold of two some run qualifies as long as there is a table |
| DbFacts.DrainNeverEnds | src/db.rs:497-501 | below a threshold of two, however many merges have run since there was a table, there is one, and a run that qualifies |
| Wal.ReplayTruncated | src/wal.rs:199-256 | replay of any cut of a log gives exactly the batches whose frames lie whole before the cut, as many as fit and never part of one; uncut, all |
| Wal.ReplayInFlight | src/wal.rs:138-171 | a crash inside an append keeps every earlier batch, and the interrupted one only if all its bytes are there |
| Wal.TailIsLost | src/wal.rs:199-256 | whatever stands behind the last whole frame, replay stops there if and only if it does not begin with a frame that verifies; a frame of no records aside |
| Wal.HeaderTorn | src/wal.rs:55-71 | a log header torn at one to seven bytes, with anything appended behind it: what replay takes the file for, and that no frame comes out of it unless the bytes there verify |
| Wal.AppendBehindTornTailIsLost | src/wal.rs:77-114 | behind a frame torn in its payload nothing that is appended is replayed, if and only if it does not complete that frame under the same checksum |
| Versions.ReplayVersionTwo | src/header.rs:67-72 | a log of version two, counted frames under the first checksum, replays to the batches whole before any cut, as many as fit |
| Versions.ReplayVersionOne | src/wal.rs:213-215 | one of version one, a record a frame without a count, likewise |
| Versions.ReplayHeaderless | src/header.rs:107-141 | one from before headers likewise, from its first byte on |
| Versions.AppendedFrame | src/wal.rs:138-171 | what an append adds to a log of each kind is the frame that kind replays |
| Versions.PayloadStrict | src/wal.rs:229-250 | a payload with bytes behind its records, or too few for them, is corrupt |
| Versions.CorruptFrameRefused | src/wal.rs:229-250 | a frame whose checksum holds and whose payload is corrupt makes the log refused, not cut short |
| Wal.ReplayFile | src/wal.rs:199-256 | the replay loop gives the value or the error of the replay specification on any bytes |
| Wal.ReadPayload | src/wal.rs:229-250 | a verified payload is decoded whole or refused |
| Wal.Log.Create | src/wal.rs:55-71 | a fresh log is the file of no batches |
| Wal.Log.Append | src/wal.rs:77-114 | an existing file is appended to as it is; an empty one gets a header |
| Wal.Log.AppendBatch | src/wal.rs:138-171 | one frame for the batch; an older version refuses more than one record and leaves the file alone |
| Manifest.ReplayTruncated | src/manifest.rs:266-324 | replay of any cut: empty at 0 and at 8 bytes, refused while no 17-byte frame is whole, else the fold of the first floor((n-8)/17) edits |
| Manifest.ReplayInFlight | src/manifest.rs:178-188 | a crash inside a batch of edits keeps a prefix of them |
| Versions.ManifestVersionOne | src/header.rs:75-80 | a manifest of version one replays to its edits under the first checksum, at any cut |
| Versions.ManifestHeaderless | src/header.rs:107-141 | one from before headers likewise |
| Versions.ManifestTail | src/manifest.rs:280-301 | behind whole edits, bytes that do not verify are ignored, and a frame that verifies and is no edit makes the manifest refused |
| Manifest.EditRoundTrip | src/manifest.rs:40-65 | edits decode to themselves |
| Manifest.SnapshotReplays | src/manifest.rs:93-101 | the snapshot of a state replays to that state |
| Manifest.RolloverCrashSafe | src/manifest.rs:192-216 | a rollover interrupted before, inside or after writing the generation, swapping CURRENT and removing the old file opens to the same state |
| Manifest.ReplayFile | src/manifest.rs:266-324 | the replay loop gives the value or the error of the replay specification on any bytes |
| Manifest.ManifestLog.AppendBatch | src/manifest.rs:178-188 | one frame an edit, in order, behind what is there |
| Manifest.ManifestLog.WriteGeneration | src/manifest.rs:197-208 | the next generation is written whole while nothing names it |
| Manifest.ManifestLog.SwapCurrent | src/manifest.rs:210-211 | `CURRENT` moves on only to a generation that is whole |
| Manifest.ManifestLog.RemoveGeneration | src/manifest.rs:216 | only a generation that is no longer named goes |
| Manifest.ManifestLog.Rollover | src/manifest.rs:192-216 | the directory still opens to the state, through a new generation |
| Manifest.GenerationReplays | src/manifest.rs:236-246 | a fresh generation replays to the state it was written from |
| MemTables.MemTable.Add | src/memtable.rs:50-57 | every version is kept in order and the size stays the sum of encoded lengths |
| MemTables.MemTable.GetAt | src/memtable.rs:66-80 | the newest version below the bound |
| MemTables.MemTable.Range | src/memtable.rs:89-107 | exactly the records of the range, in order |
| MemTables.ReplayOrderIrrelevant | src/db.rs:940-952 | logs with the same records rebuild the same MemTable in whatever order |
| MemTables.RewriteRebuilds | src/memtable.rs:84-86 | replaying a MemTable in its own order gives it back |
| MemTables.InsertLen | src/memtable.rs:50-57 | inserting adds the record's length less that of the version it replaces |
| SsTable.SsTableReader.GetAt | src/sstable/mod.rs:270-298 | Bloom check, binary search and block scan give exactly the newest record of the key below the bound |
| SsTable.SsTableReader.LoadBlock | src/sstable/mod.rs:241-257 | a block through the cache is the block as written, cached or not |
| SsTable.SsTableReader.IterAll | src/sstable/mod.rs:345-352 | a full walk returns the records written |
| SsTable.BlockCache.Put | src/sstable/mod.rs:144-158 | the queue stays a duplicate-free listing of at most 64 cached offsets, and only the oldest goes |
| SsTable.StartScan | src/sstable/mod.rs:328-341 | a scan has exactly the records at or above the start key to yield |
| SsTable.TableScan.Next | src/sstable/mod.rs:397-433 | each call yields the next record of that suffix across blocks, and ends only at its end |
| SsTable.WriteTable | src/sstable/mod.rs:44-126 | the file of a partition that splits no key and closes each block at the first chance, its index, and a filter with every key |
| SsTable.OpenTable | src/sstable/mod.rs:177-226 | opening what was written gives a reader over the same records |
| SsTableFile.WriteBlocks | src/sstable/mod.rs:71-96 | data and index of that partition, and exactly the probes of all keys in the filter |
| SsTableFile.WriteRecord | src/sstable/mod.rs:71-89 | one turn keeps the partition, the offsets and the block sizes |
| SsTableFile.OpenWritten | src/sstable/mod.rs:177-226 | index, filter and count come back from the footer |
| SsTableFile.LoadedBlock | src/sstable/mod.rs:241-257 | a block read through its index entry is the block written |
| SsTableFile.OffsetsAscend | src/sstable/mod.rs:52-69 | no two blocks share an offset, so the cache key is unique |
| Blocks.BracketingBlock | src/sstable/mod.rs:306-320 | the last block whose first key is not above the key |
| Blocks.OnlyInBracket | src/sstable/mod.rs:280-290 | no other block holds a version of the key |
| Blocks.BlockAnswers | src/sstable/mod.rs:286-298 | the newest version in that block is the newest of the table |
| Blocks.ScanFrom | src/sstable/mod.rs:328-341 | from that block on, what is at or above the start key is what the whole table has there |
| Bloom.BloomFilter.Insert | src/bloom.rs:44-50 | the set of bits grows by exactly the probes of the key |
| Bloom.BloomFilter.Contains | src/bloom.rs:54-63 | true exactly when all probes of the key are set |
| Bloom.FilterRoundTrip | src/bloom.rs:66-93 | a filter decodes to itself |
| Bloom.NoFalseNegatives | src/bloom.rs:44-93 | for any hashes, a key inserted is found after build, encode and decode |
| Codec.DecodeEncode | src/record.rs:40-83 | a record decodes to itself with what follows left over |
| Codec.DecodeTruncated | src/record.rs:68-83 | no proper prefix of an encoded record decodes |
| Codec.EncodeInto | src/record.rs:40-52 | appends the encoding behind what is there |
| Codec.DecodeAt | src/record.rs:68-83 | on any bytes, the value and position or the error of the decoding specification |
| Codec.Reader.Slice | src/record.rs:92-115 | bounds-checked: the next bytes, or an error and no move |
| Codec.DecodeAllEncodeAll | src/record.rs:68-83 | a run of records decodes to itself |
| Formats.U32Digits | src/record.rs:43 | byte `i` of a 32-bit field is digit `i` to base 256 |
| Formats.U64Digits | src/record.rs:41 | and of a 64-bit field |
| Formats.ReadU32Value | src/record.rs:106-108 | four bytes are read as their little-endian value |
| Formats.ReadU64Value | src/record.rs:110-112 | and eight |
| Formats.RecordLayout | src/record.rs:40-52 | every field of an encoded record by its offset |
| Formats.DecodeLayout | src/record.rs:68-83 | decoding any bytes: which are a record, which one, what is left over, and that all others are refused |
| Formats.FrameLayout | src/wal.rs:138-171 | checksum, length and payload of a frame by offset |
| Formats.PayloadLayout | src/wal.rs:138-171 | a batch is its count and its records one behind the other |
| Formats.HeaderBytes | src/header.rs:107-116 | the eight bytes of each header |
| Formats.EditLayout | src/manifest.rs:40-51 | tag and body of each edit by offset |
| Formats.DecodeEditLayout | src/manifest.rs:53-65 | decoding any bytes as an edit |
| Formats.EntryLayout | src/sstable/mod.rs:99-104 | an index entry by offset |
| Formats.FooterLayout | src/sstable/mod.rs:98-123 | where data, index, filter and each field of the footer stand in a table file |
| Formats.OpenChecks | src/sstable/mod.rs:177-226 | which files are refused as tables by their footer, and what an accepted one is read as |
| Formats.FilterLayout | src/bloom.rs:66-72 | an encoded filter by offset |
| Formats.DecodeFilterLayout | src/bloom.rs:75-93 | decoding any bytes as a filter |
| Formats.ProbeIsRunning | src/bloom.rs:44-50 | probe `i` is the first hash advanced `i` times by the second, wrapping, then reduced |
| Formats.MaskIsShift | src/bloom.rs:48 | bit `n` of a filter is bit `n % 8` from the low end of its byte |
| Header.ClassifyEncoded | src/header.rs:107-141 | a header of this or an older version is recognised whatever follows, a newer one refused |
| Header.ClassifyCut | src/header.rs:119-141 | a header cut short is an empty file at zero bytes and otherwise read as a file from before headers, never as a version |

## Left out

- Real filesystem calls, directory locking, `fsync` variants and the batching of unsynced appends.
- LZ4, xxh3 and CRC: taken as arbitrary functions, the compressor with an inverse.
- Bloom filter sizing in floating point and its false-positive rate.
- Threads, channels, worker loops and the error latch: only the interleaving of steps is modelled.
- `migrate_dir` on a directory with tables, a log and no manifest; `CheckpointUnnamed` covers one without a log.
- Failed writes: an append succeeds or the process crashes.
- Opening table files the writer did not produce, beyond the checks of `OpenChecks`.
- The text of the `CURRENT` file and the parsing of file names.
- The command line, benchmarks and fuzz targets; accessors such as `compaction_is_due`.
- The live set of `Database.Db` holds tables as values with their records. Gets and scans of the object are given the readers of these tables and run on them. The sharing of readers between threads is not modelled.
- Database.Db.WriteTable: stores the table's records; that writing them as bytes and opening the file gives a reader over them is `ReaderStack.WriteAndOpen`, under the condition that the lengths fit their fields.
- Database.Db.MergeRun: merges the tables' records; that the same merge comes out of their readers is `ReaderStack.CompactReaders`.
- ReaderStack.ScanReaders: walks each table's scan to its end before the merge starts, where the source pulls records one at a time; the order of block loads is not modelled.
- Database.Db.FlushInner: runs its sections back to back; interleavings with other threads are covered by the state machine, not by this method.
- Database.Db.CompactStep: likewise back to back.
- Histories.GetsLinearize: like its neighbours, about histories whose crashes are harmless; one that is not ends the history.
- SsTable.OpenTable: takes the file as the writer left it, with its lengths in range.
