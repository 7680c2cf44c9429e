# A verified model of the distr-hnsw partition

distr-hnsw stores key/vector records in partitions. A partition keeps its
records in memory behind an HNSW graph, writes every mutation to a write-ahead
log before it is acknowledged, freezes itself into snapshots, rebuilds itself
in compactions, and recovers from the newest snapshot that verifies plus the
log behind it. This project models that machine and proves what it promises.

## How the model is built

**The durable partition.** `WalCodec` and `WalSegment` read and write the log
byte by byte. `LogFold` says what a log means: the fold of its entries into
live rows, keys ever seen, and the window of recent operation ids.
`PartitionState` is the in-memory state (key table, key map, slot records,
vectors, tombstones) and proves that applying an entry refines the fold.
`Compaction` captures live slots and renumbers them. `Disk` is the directory:
segment files with what of their content and of their directory entry is
durable, snapshot files, and what a power loss may leave: a file that is
durable as it stands comes back as it stands, any other may lose what was not
synced or come back with unreadable bytes behind its entries. `StoreOps` are
the operations with a fault at every write boundary: a partial or unsynced
write, a header written in part or not synced, a directory not synced, a
repair stopped between its two halves, a segment created but not reopened, a
snapshot stopped before or after its rename. `Recovery`, `Directory`,
`Serving`, `Upkeep` and `Opening` carry the invariant through each operation;
`System` composes them into runs.

What survives is stated over the files. `Durability` says when a directory
holds the log up to an entry (a verifying snapshot, or nothing, and segments
that continue it without a gap) and when it goes on holding it through every
power loss. `Runs` and `Reopening` say what is served, what stays durable and
when an open succeeds; `Orderliness`, `Smooth` and `SnapshotAhead` say which
runs, failures and power losses included, never leave a directory that does not
open; `Acknowledged` says what an acknowledgement means to the caller and which
requests get one; `CatchingUp` says when a compaction can finish and what it
then serves, and `Reclaiming` what it gives back; `Filling`, `Findings` and
`RestoreLoss` are runs in which something is lost. `WalWriting`, `Idempotency`
and `Partitions` are the objects of the program with their fields updated in
place, each method proved to do what the operation of the runs does.

The history of a partition, `Sys.log`, is every entry its files ever came to
hold. No failure shortens it; an open that succeeds cuts it to what it serves.

**The snapshot file.** `SnapshotCodec`, `SnapshotGraph`, `SnapshotFile` and
`SnapshotLoops` are the sections, the layout, the loader and its cross-check;
`SnapshotWriting` connects them with the partition. `Layouts` compares what the
encoders write with the layouts the engine contract gives, byte by byte.

**The graph.** `Rank`, `Graph`, `Heuristic`, `FlatRows`, `Bits`, `VisitedSet`,
`InLinks` and `Hnsw` are the flat neighbour arrays, insertion, the two-heap
beam search and its reused bitset, and the exact oracle it is compared with.
`ParallelBuild` is the concurrent builder as a machine of per-list locked
steps. `CompactionRank` shows renumbering does not change what a search names.

**Smaller pieces.** `Stamp` and `StampText` (civil dates), `Quant` (int8
distances), `Inventory` (paged listing over a prefix tree), `Archive` (which
log segments a restore needs) and `Restoring` (what the restored directory
recovers, and what removing archived segments leaves).

A distance is a real number and a metric any function into the reals; an `f32`
is its bit pattern; a checksum and a digest are any functions of bytes.
Failures are explicit: every fallible call takes the failure it meets as an
argument, so a statement for all arguments covers every failure.

## What was found

Each of these has a run of the model that shows it, in `Findings` or
`RestoreLoss`, and a condition that says exactly when it happens or is avoided.

- A retry answered from the idempotency window acknowledges an entry again.
  After a process failure an open replays entries that were appended and never
  synced, without syncing them, so that acknowledgement survives every power
  loss exactly when the entry is durably held (`Runs.RetryDurableExactly`).
  `Findings.RetriedEntryIsLost` is a run in which it is not. The module comment
  of partition.rs promises acknowledgement only after the sync; the code
  differs here.
- A snapshot of such an entry is ahead of the log after a power loss, and every
  open refuses (`Findings.SnapshotAheadRefuses`; `Reopening.HeldOpens` says
  exactly when an open succeeds). A snapshot never comes to that exactly when
  the segments are sure to reach the state it freezes
  (`SnapshotAhead.SnapshotExactly`, `SnapshotAhead.FinishSnapshotExactly`).
- When a snapshot's directory sync fails after the rename, a restart takes that
  snapshot as its starting point and `truncate_wal_below_snapshot` removes the
  segments below it; a power loss then takes the snapshot's name, and no file
  holds the entries (`Findings.TruncatedEntriesAreLost`). A truncation keeps an
  entry durable if and only if it removes nothing or some starting point no
  power loss can take reaches what it keeps (`Runs.TruncationSafeExactly`),
  which it does whenever the snapshot's rename is durable
  (`Runs.SyncedSnapshotBacks`).
- `WalWriter::open` continues a newest segment whose directory entry may never
  have been synced (creating it failed between syncing the file and syncing the
  directory, and the process restarted without a power loss), or starts a new
  segment behind a full one whose last entries were never synced. What is
  acknowledged afterwards is lost, or left behind a gap no open crosses
  (`Findings.ExposedAckIsLost`, `Findings.AckBehindGapIsLost`). A fresh
  acknowledgement survives every power loss exactly when, before the call, the
  segment had a durable name (or was full) and everything before it was durably
  held (`Runs.AckDurableExactly`); an open leads there exactly when the
  directory it found does (`Runs.OpenRests`).
- A segment file without its header comes back after a power loss when its
  removal was not durable. If its sequence has been written elsewhere since, a
  restore of the archived directory takes it for the log's end, leaves out the
  segment that holds that sequence, and opens without it
  (`RestoreLoss.RestoreLosesAcked`). A restore, and the removal of archived
  segments, recovers what the directory does exactly when there is no such file
  (`Restoring.RestoreRecoversSame`, `Restoring.ArchiveKeepsSame`).

## Model

| member | source | states |
|---|---|---|
| `Runs.EveryRun` | crates/distr-hnsw-index/src/partition.rs:473-639 | every state of every run of upserts, deletes, snapshots, captures, compaction finishes, truncations, opens, kills, power losses and snapshot damage, failing at any write boundary (those inside a torn-tail repair and a segment creation included), satisfies the invariant |
| `Runs.ReachableInv` | crates/distr-hnsw-index/src/partition.rs:372-468 | the same from a partition just created or bulk-loaded, or whose creation or first snapshot failed part-way |
| `Runs.ServesTheLog` | crates/distr-hnsw-index/src/partition.rs:920-1008 | what is served is the fold of the whole log while the writer may append, and of all but the last, in-doubt entry once it is poisoned; `high_water + 1 = next_seq` otherwise |
| `Runs.OpenServesTheLog` | crates/distr-hnsw-index/src/partition.rs:473-639 | an open that succeeds, after any run and whatever failed before, serves exactly the fold of the history up to where the files end, passes over nothing the files held, and may append the next entry |
| `Runs.OpenReplays` | crates/distr-hnsw-index/src/partition.rs:498-639 | an open that succeeds serves, slot for slot, the newest verifying snapshot with the history from its mark on replayed onto it, and truncates below that mark |
| `Runs.AckedSurvive` | crates/distr-hnsw-index/src/partition.rs:920-959 | over files: at every later point of a guarded run, power losses included, a verifying snapshot or the empty start and segments without a gap behind it hold the entries acknowledged so far, every further power loss leaves such files, and whatever is served includes them; the guards are on the state before each truncation, open and damage |
| `Runs.SafeStep` | crates/distr-hnsw-index/src/partition.rs:187-196 | one guarded step keeps everything acknowledged durably held and the ground under the writer durable |
| `Runs.CreatedSafe` | crates/distr-hnsw-index/src/partition.rs:372-468 | such runs start from every partition created, and from every one bulk-loaded with its snapshot durable |
| `Runs.TruncationSafeExactly` | crates/distr-hnsw-index/src/partition.rs:1124-1141 | an entry goes on surviving every power loss after a truncation if and only if nothing is removed, or a starting point no power loss can take covers the entry or reaches the first segment kept |
| `Runs.SyncedSnapshotBacks` | crates/distr-hnsw-index/src/snapshot.rs:362-374 | truncating below a snapshot whose rename is durable always meets that condition |
| `Runs.OpenRests` | crates/distr-hnsw-index/src/wal.rs:397-448 | a successful open writes on durable ground if and only if the directory it found, repaired, is durable up to where it goes on |
| `Runs.AckDurableExactly` | crates/distr-hnsw-index/src/wal.rs:476-528 | a fresh acknowledgement survives every power loss if and only if, before the call, everything before the writer's segment was durably held and that segment had a durable name or was about to be rotated away |
| `Runs.RetryDurableExactly` | crates/distr-hnsw-index/src/partition.rs:708-713 | an acknowledgement from the window survives every power loss if and only if the files hold the entry durably |
| `Findings.RetriedEntryIsLost` | crates/distr-hnsw-index/src/partition.rs:473-489 | a concrete run: failed sync, process failure, open, retry acknowledged, power loss, open without the entry |
| `Findings.ExposedAckIsLost` | crates/distr-hnsw-index/src/wal.rs:537-551 | a concrete run: the first segment's directory sync fails, the open continues it, an acknowledged entry is lost to a power loss |
| `Findings.SnapshotAheadRefuses` | crates/distr-hnsw-index/src/partition.rs:576-639 | a concrete run: failed sync, process failure, open, snapshot, power loss; the entry is gone, the snapshot verifies, and no open succeeds |
| `Findings.TruncatedEntriesAreLost` | crates/distr-hnsw-index/src/partition.rs:1124-1141 | a run: a snapshot's directory sync fails, process failure, open, truncation, power loss; the acknowledged entries are in no file and no open succeeds, though no snapshot was damaged |
| `Findings.AckBehindGapIsLost` | crates/distr-hnsw-index/src/wal.rs:401-440 | a run: the delete that fills a segment is not synced, process failure, an open starts the next segment, an acknowledged delete goes to it, power loss; it is behind a gap and no open succeeds |
| `RestoreLoss.RestoreLosesAcked` | crates/distr-hnsw/src/index_archive.rs:282-330 | a run of acknowledged and failed operations, opens and power losses after which the directory opens with everything acknowledged, and the archive of it restores to a directory that opens without the last acknowledged entry |
| `Runs.WindowIsTheLogsEnd` | crates/distr-hnsw-index/src/partition.rs:310-346 | in every reachable state the window holds exactly the last entries of the served log in order, and no operation id occurs twice among any capacity + 1 consecutive entries |
| `Runs.RetryReturnsOriginal` | crates/distr-hnsw-index/src/partition.rs:701-746 | a retry of any operation in the window, with any arguments, returns the original sequence and changes nothing on disk or in memory |
| `Runs.RowsServed` | crates/distr-hnsw-index/src/partition.rs:963-1008 | a row is served if and only if the newest upsert of its key in the log wrote it with nothing after it, or it was bulk-loaded and never touched; each key at most once |
| `Acknowledged.UpsertServes` | crates/distr-hnsw-index/src/partition.rs:701-736 | a fresh acknowledgement of an upsert carries the next sequence; then the key leads to the row of that sequence with the payload given and the vector given, prepared and stored, it is the key's only row, every other key has the rows it had, and a retry finds the sequence |
| `Acknowledged.DeleteServes` | crates/distr-hnsw-index/src/partition.rs:738-747 | a fresh acknowledgement of a delete carries the next sequence; then the key has no row and no live slot, every other key has the rows it had, and a retry finds the sequence |
| `Acknowledged.UpsertAckedExactly` | crates/distr-hnsw-index/src/partition.rs:701-736 | an upsert is acknowledged if and only if its id is in the window, or it has the right length, is finite, prepares, is admitted, fits the log format, the writer is not poisoned and nothing fails; refused, it changes nothing served unless the process stopped between applying and answering |
| `Acknowledged.DeleteAckedExactly` | crates/distr-hnsw-index/src/partition.rs:738-747 | a delete, of an absent key too, is acknowledged if and only if its id is in the window, or the log admits its key, the writer is not poisoned and nothing fails |
| `System.EveryStep` | crates/distr-hnsw-index/src/partition.rs:187-196 | one step keeps the invariant, and only an open that succeeds shortens the history, to what it serves |
| `System.CreatedInv` | crates/distr-hnsw-index/src/partition.rs:372-468 | creation and bulk load establish the invariant, also when creating the first segment or the first snapshot fails at any boundary |
| `System.OpenKeeps` | crates/distr-hnsw-index/src/partition.rs:473-489 | an open keeps the invariant whatever fails in it, and one that succeeds serves the fold of the history it keeps |
| `System.PowerKeeps` | crates/distr-hnsw-index/src/wal.rs:376-389 | after a power loss the files are still slices of the same history and the snapshots states of it |
| `Reopening.OpensExactly` | crates/distr-hnsw-index/src/partition.rs:498-639 | with nothing serving, a fault-free open succeeds if and only if every file reads, replay from the newest verifiable snapshot leaves no gap, and it ends where the log does |
| `Reopening.ReplayExactly` | crates/distr-hnsw-index/src/partition.rs:595-629 | replay succeeds if and only if every segment reads and none leaves a gap; then exactly how far it gets, whether history connects and where the log ends |
| `Reopening.RecoverExactly` | crates/distr-hnsw-index/src/partition.rs:498-639 | recovery reaches the end of the log if and only if the directory is openable |
| `Reopening.HeldOpens` | crates/distr-hnsw-index/src/partition.rs:498-639 | a directory is openable if and only if every file reads, no verifying snapshot is ahead of the files, and the files hold the log to their end |
| `Reopening.TruncateOpens` | crates/distr-hnsw-index/src/partition.rs:1124-1141 | the files a truncation leaves of any serving partition, stopped anywhere, open if and only if they read, no verifying snapshot is ahead of them and they hold the log from the newest of those on; they go on opening if and only if nothing is removed or that snapshot reaches the first segment kept |
| `Restoring.RestoreRecoversSame` | crates/distr-hnsw/src/index_archive.rs:99-330 | from the rows an archive records of a directory (its segments, those of earlier archives, the newest verifying snapshot and older ones), through the rows restored: the restored directory opens and recovers the same fold of the log if and only if no header-less newest file begins at or before the log's end and the entry after the snapshot |
| `Restoring.ArchiveKeepsSame` | crates/distr-hnsw/src/index_archive.rs:240-265 | removing the archived segments a snapshot covers, stopped anywhere, leaves a directory that recovers the same fold if and only if the removal does not come as far as such a file |
| `Restoring.RemoveArchived` | crates/distr-hnsw/src/index_archive.rs:243-261 | the removal loop removes exactly the segments whose successor begins by the entry after the snapshot, never the newest |
| `Smooth.EveryOpenExactly` | crates/distr-hnsw-index/src/partition.rs:473-489 | along a careful run, with any faults, kills and power losses, an open that meets no fault succeeds if and only if the bytes behind the newest segment's entries hide no valid frame |
| `Smooth.EveryOpenSucceeds` | crates/distr-hnsw-index/src/partition.rs:473-489 | from a created or bulk-loaded partition, along a run whose operations meet no fault, however often the process is killed or the power lost between them, every open succeeds |
| `Smooth.CreatedSteady` | crates/distr-hnsw-index/src/partition.rs:372-468 | careful runs start from every partition created, whatever failed, and from every one bulk-loaded with its snapshot durable |
| `SnapshotAhead.SnapshotExactly` | crates/distr-hnsw-index/src/snapshot.rs:345-376 | a snapshot taken of a partition in order leaves files that every power loss leaves openable if and only if it stops before its rename, or the segments are sure to reach the state it freezes |
| `SnapshotAhead.FinishSnapshotExactly` | crates/distr-hnsw-index/src/partition.rs:840-918 | the same of the snapshot that finishes a compaction, which is not written when the log no longer holds what the rebuilt state lacks |
| `Smooth.SteadyStep` | crates/distr-hnsw-index/src/partition.rs:1085-1141 | each careful step, whatever fails in it, keeps the directory in order: sealed segments durable, no snapshot ahead of what the segments are sure to reach, everything before the newest segment durably held |
| `Smooth.CalmStep` | crates/distr-hnsw-index/src/partition.rs:1085-1141 | each step without a fault, power losses included, keeps nothing torn, unsynced or unnamed |
| `Orderliness.OrderlyOpens` | crates/distr-hnsw-index/src/wal.rs:288-304 | a directory in order is openable if and only if no valid frame hides behind its newest segment's entries |
| `Orderliness.LossKeepsOrderly` | crates/distr-hnsw-index/src/wal.rs:533-551 | every power loss leaves a directory in order in order |
| `Orderliness.DamageExactly` | crates/distr-hnsw-index/src/snapshot.rs:417-504 | damage to a snapshot leaves a directory in order in order if and only if what is before the newest segment stays durably held without it |
| `Orderliness.OpenOrder` | crates/distr-hnsw-index/src/partition.rs:473-489 | so does an open, whatever fails in it, that may go on from the newest segment |
| `Opening.OpenOk` | crates/distr-hnsw-index/src/partition.rs:473-489 | an open with any fault, one between the halves of the repair included: the invariant, and on success the fold of the history up to where the files end with the writer there |
| `Opening.RecoverOk` | crates/distr-hnsw-index/src/partition.rs:498-639 | recovery that succeeds has applied a contiguous run of the true log from a state no verifiable snapshot is newer than, and read every sealed segment without a torn tail |
| `Opening.RepairInv` | crates/distr-hnsw-index/src/wal.rs:306-324 | stopped between its two halves or not, the torn-tail repair keeps the invariant |
| `Opening.RepairOk` | crates/distr-hnsw-index/src/wal.rs:306-324 | repaired, every segment is whole with no tail, and the files end where they did |
| `Opening.OpenWriterOk` | crates/distr-hnsw-index/src/wal.rs:397-448 | a writer positioned after a high-water mark opens only where the log ends there |
| `Recovery.ReplaySegsSound` | crates/distr-hnsw-index/src/partition.rs:595-629 | replay over any directory of the partition's files applies only entries of the log, in order |
| `Recovery.CatchUpSound` | crates/distr-hnsw-index/src/partition.rs:869-893 | so does the compaction's catch-up |
| `Serving.MutateOk` | crates/distr-hnsw-index/src/partition.rs:920-959 | a mutation under any fault: what the files hold, what is served, and when the writer is poisoned |
| `Serving.AppendOk` | crates/distr-hnsw-index/src/wal.rs:476-505 | an append, rotation included, logs exactly its entry or nothing, and poisons the writer on any failure after the encoding |
| `Serving.RotateOk` | crates/distr-hnsw-index/src/wal.rs:521-528 | after a rotation the writer stands in a new, empty, durable segment or is poisoned; unless its sync failed the sealed segment is durable as it stands, with the same entries |
| `Upkeep.FinishOk` | crates/distr-hnsw-index/src/partition.rs:840-918 | finishing a compaction is a stutter: the served state means the same before and after, whether it succeeds, fails around its snapshot, or misses log entries (then nothing served changes) |
| `CatchingUp.FinishExactly` | crates/distr-hnsw-index/src/partition.rs:840-918 | finishing a compaction succeeds if and only if it meets no fault, every segment it reads reads, and the segments hold every entry after the rebuild point up to the served high-water mark; it then serves the rebuilt state with exactly those entries replayed onto it, and the snapshot at that mark is of that state; without those entries nothing changes |
| `CatchingUp.CatchExactly` | crates/distr-hnsw-index/src/partition.rs:869-893 | the catch-up succeeds if and only if every segment it reads reads and none leaves a gap, and then how far it gets |
| `Reclaiming.CompactionReclaims` | crates/distr-hnsw-index/src/partition.rs:840-918 | after a finish that succeeds in any reachable state there is a slot for each row captured and one for each upsert since, and no more tombstones than entries since; with none since, exactly one slot a row and no tombstone |
| `Reclaiming.ReachableCompact` | crates/distr-hnsw-index/src/partition.rs:224-248 | in every reachable state no rebuilt state waiting to be finished has a tombstone |
| `Reclaiming.CaptureExactly` | crates/distr-hnsw-index/src/partition.rs:796-826 | a capture succeeds if and only if every live vector is finite |
| `Upkeep.CaptureOk` | crates/distr-hnsw-index/src/partition.rs:796-826 | the captured state means the same as the served one |
| `Upkeep.SnapshotOk` | crates/distr-hnsw-index/src/partition.rs:1085-1120 | a snapshot under any fault keeps the invariant and what is served; unless it stops before its rename there is then a file of the served state under its mark, the files of other marks stay, and the snapshot mark advances when the directory was synced |
| `Upkeep.TruncateOk` | crates/distr-hnsw-index/src/partition.rs:1124-1141 | a truncation stopped anywhere keeps the invariant |
| `Upkeep.KeptIsSuffix` | crates/distr-hnsw-index/src/partition.rs:1124-1141 | the removed segments are a prefix before the writer's segment, each ending at or below the snapshot, and the first kept one starts no later than the entry after it; unless stopped the loop removes every such segment |
| `Directory.AfterLoss` | crates/distr-hnsw-index/src/wal.rs:533-551 | what a power loss leaves is still of the same history: segments are slices of it in order, snapshots states of it |
| `Durability.SurvivesExactly` | crates/distr-hnsw-index/src/wal.rs:507-551 | every directory a power loss may leave holds the log up to an entry if and only if a starting point no power loss can take and synced entries of durably named segments hold it |
| `Durability.LoggedDurable` | crates/distr-hnsw-index/src/wal.rs:476-528 | an entry appended and synced is durably held if and only if the ground it was written on was |
| `Durability.TruncateExactly` | crates/distr-hnsw-index/src/partition.rs:1124-1141 | a truncation keeps an entry durably held if and only if it removes nothing or a durable starting point covers the entry or reaches what is kept |
| `Durability.LossSettles` | crates/distr-hnsw-index/src/wal.rs:533-551 | what a power loss leaves survives every further one |
| `Durability.DamagedHeld` | crates/distr-hnsw-index/src/snapshot.rs:417-504 | what stays durably held when a snapshot is damaged is exactly what is durably held from another starting point |
| `Disk.CutIsLoss` | crates/distr-hnsw-index/src/wal.rs:235-241 | cutting a segment file at any byte past its synced entries leaves whole frames and bytes that start no frame |
| `Disk.ReadFileResult` | crates/distr-hnsw-index/src/wal.rs:242-304 | reading a file gives its entries or an error, and a torn tail exactly where there is one |
| `LogFold.RowsAreNewest` | crates/distr-hnsw-index/src/partition.rs:963-1008 | a row is in the fold if and only if the newest upsert of its key wrote it, or it was there before and is untouched |
| `LogFold.FoldDistinct` | crates/distr-hnsw-index/src/partition.rs:963-1008 | one live row per key |
| `LogFold.WindowIsLast` | crates/distr-hnsw-index/src/partition.rs:310-346 | the window is exactly the last entries of the log |
| `LogFold.NoRepeatGrow` | crates/distr-hnsw-index/src/partition.rs:708-713 | deduplication keeps operation ids apart within the window's reach |
| `LogFold.RecordAllRebuilds` | crates/distr-hnsw-index/src/partition.rs:554-557 | a saved window is rebuilt exactly |
| `PartitionState.ApplyRefines` | crates/distr-hnsw-index/src/partition.rs:963-1008 | applying an entry keeps key table, key map, slot records and tombstones in agreement and does to the rows what the log says |
| `PartitionState.ReplayRefines` | crates/distr-hnsw-index/src/partition.rs:608-628 | so does a whole replay |
| `PartitionState.BulkLoadedOk` | crates/distr-hnsw-index/src/partition.rs:425-468 | a bulk load with unique keys establishes the agreement; its rows are the given ones |
| `PartitionState.ViewOfKey` | crates/distr-hnsw-index/src/partition.rs:693-696 | a key leads to a live slot if and only if it has a row, and then to that row |
| `Compaction.StagedMeansSame` | crates/distr-hnsw-index/src/partition.rs:224-248 | the rebuilt state has the same rows in the same order, the same key table and the same window |
| `CompactionRank.SameRowsSameRanking` | crates/distr-hnsw-index/src/hnsw.rs:723-741 | two states with the same rows rank the same rows at the same distances in the same order, for every query, k and filter carried over |
| `CompactionRank.CompactionKeepsRanking` | crates/distr-hnsw-index/src/partition.rs:796-826 | so a compaction caught up over any entries ranks as the partition that never compacted |
| `WalCodec.DecodeOfBody` | crates/distr-hnsw-index/src/wal.rs:51-138 | decoding an encoded entry gives it back |
| `WalCodec.BodyOfDecode` | crates/distr-hnsw-index/src/wal.rs:94-138 | a body that decodes is the encoding of what it decoded to |
| `WalCodec.ParseFrame` | crates/distr-hnsw-index/src/wal.rs:342-361 | a frame followed by any bytes parses to its entry and length |
| `WalCodec.ParseCutFrame` | crates/distr-hnsw-index/src/wal.rs:342-361 | a frame cut short anywhere never parses |
| `WalCodec.ParseReencode` | crates/distr-hnsw-index/src/wal.rs:342-361 | what parses is exactly the bytes of its frame |
| `WalCodec.ParseValid` | crates/distr-hnsw-index/src/wal.rs:326-374 | a frame is unreadable if and only if it is not valid for the torn-tail scan |
| `Layouts.FrameHeadLayout` | crates/distr-hnsw-index/src/wal.rs:52-91 | a frame has at its bytes 0, 4, 8 and 16 its remaining length, the checksum of what follows, the sequence (all little-endian) and the operation id |
| `Layouts.FrameKeyLayout` | crates/distr-hnsw-index/src/wal.rs:52-91 | then 1 for an upsert or 2 for a delete, and the key behind its length, where a delete ends |
| `Layouts.FrameRecordLayout` | crates/distr-hnsw-index/src/wal.rs:52-91 | then the payload behind its length, the number of dimensions and the components, each at its place |
| `WalSegment.IntactEntriesSurvive` | crates/distr-hnsw-index/src/wal.rs:242-304 | header, frames, then any bytes: the reader errs or returns a list beginning with exactly those entries |
| `WalSegment.TornWrite` | crates/distr-hnsw-index/src/wal.rs:288-304 | a write cut short is repaired to the entries before it if and only if no valid frame starts inside what was written of it |
| `WalSegment.WholeSegment` | crates/distr-hnsw-index/src/wal.rs:242-304 | a complete segment reads back its entries with no torn tail |
| `WalSegment.ReadSegmentSound` | crates/distr-hnsw-index/src/wal.rs:242-304 | what is returned re-encodes to exactly the bytes consumed, a torn tail is reported only in the newest segment and only where no valid frame starts later |
| `WalSegment.HeaderRoundTrip` | crates/distr-hnsw-index/src/wal.rs:176-208 | a segment header reads back |
| `Layouts.SegmentHeaderLayout` | crates/distr-hnsw-index/src/wal.rs:176-183 | the 32 bytes of a segment header: magic, version 1, reserved, partition id, first sequence |
| `WalSegment.ReadSegmentLoop` | crates/distr-hnsw-index/src/wal.rs:242-304 | the read loop computes the segment reading |
| `WalWriting.WalWriter.AppendUnsynced` | crates/distr-hnsw-index/src/wal.rs:476-505 | the method's effect on file, counters and poisoning is the operation of the runs |
| `WalWriting.WalWriter.Rotate` | crates/distr-hnsw-index/src/wal.rs:521-528 | likewise for rotation |
| `WalWriting.WalWriter.CreateSegment` | crates/distr-hnsw-index/src/wal.rs:535-551 | likewise for creating a segment, failing at each of its writes and syncs |
| `WalWriting.WalWriter.Sync` | crates/distr-hnsw-index/src/wal.rs:507-519 | a sync makes the whole newest segment durable or poisons the writer |
| `WalWriting.WalWriter.Open` | crates/distr-hnsw-index/src/wal.rs:392-448 | the writer extends the newest segment only where it ends at the given sequence and has room, and otherwise creates one, which may fail at any boundary; files and error are those of the operation of the runs |
| `WalWriting.WalWriter.TruncateTornTail` | crates/distr-hnsw-index/src/wal.rs:306-324 | the repair, stopped between its halves or not, has the effect of the operation of the runs |
| `WalWriting.WalWriter.TruncateBelow` | crates/distr-hnsw-index/src/partition.rs:1124-1141 | the removal loop removes exactly the covered segments it examined |
| `Idempotency.IdempotencyWindow.Record` | crates/distr-hnsw-index/src/partition.rs:329-338 | renews a known id in place or appends it, and drops the oldest beyond the capacity |
| `Idempotency.IdempotencyWindow.Get` | crates/distr-hnsw-index/src/partition.rs:325-327 | the map answers as a search of the queue would |
| `Idempotency.IdempotencyWindow.Entries` | crates/distr-hnsw-index/src/partition.rs:340-345 | the saved window, oldest first |
| `Partitions.Partition.Apply` | crates/distr-hnsw-index/src/partition.rs:963-1008 | the fields change as the specification says, or not at all when the vector is refused |
| `Partitions.Partition.Mutate` | crates/distr-hnsw-index/src/partition.rs:920-959 | append, sync, apply and acknowledge have the effect of the operation of the runs under every fault |
| `Partitions.Partition.Upsert` | crates/distr-hnsw-index/src/partition.rs:701-736 | so does an upsert with its checks in order, hence by `Acknowledged.UpsertServes` it serves what was asked for |
| `Partitions.Partition.Delete` | crates/distr-hnsw-index/src/partition.rs:738-747 | so does a delete |
| `Partitions.Partition.CaptureCompaction` | crates/distr-hnsw-index/src/partition.rs:796-826 | the capture loop copies exactly the live slots in slot order |
| `Partitions.Partition.FinishCompaction` | crates/distr-hnsw-index/src/partition.rs:840-918 | staging, catch-up, snapshot and swap have the effect of the operation of the runs, hence by `CatchingUp.FinishExactly` the rebuilt state with the later entries is what is served; an error leaves the served fields as they were |
| `Partitions.Partition.ReplayLog` | crates/distr-hnsw-index/src/partition.rs:586-629 | the nested replay loops compute the replay |
| `Partitions.Partition.Recover` | crates/distr-hnsw-index/src/partition.rs:498-639 | recovery builds the partition the specification describes |
| `Partitions.Partition.Open` | crates/distr-hnsw-index/src/partition.rs:473-489 | recover, repair and writer together have the effect of the open of the runs under every fault |
| `Partitions.Partition.Snapshot` | crates/distr-hnsw-index/src/partition.rs:1085-1120 | a snapshot freezes the served state and advances the snapshot mark when it succeeds |
| `Partitions.Partition.Search` | crates/distr-hnsw-index/src/partition.rs:1014-1069 | with a filter of at most 200 slots per ef the hits are the k nearest of its live slots; otherwise they are the k best, by exact distance, of the best max(4k, 100) a traversal by approximate distances found from where the greedy descent lands, and the k nearest of all live accepted slots reachable from there when these are no more than min(max(ef, k), max(4k, 100)); every hit is the live slot of its key, carries that row's payload and its exact distance, respects the filter, and no key occurs twice |
| `Partitions.NewestVerifiable` | crates/distr-hnsw-index/src/partition.rs:509-519 | the first snapshot that verifies in the listing is the newest that does |
| `SnapshotFile.LoadOfEncode` | crates/distr-hnsw-index/src/snapshot.rs:252-332 | loading what was encoded gives the image back when its references agree and refuses it otherwise |
| `SnapshotFile.VerifyTrip` | crates/distr-hnsw-index/src/snapshot.rs:417-504 | header, footer, table and digests of an encoded file check out and yield its seven sections |
| `SnapshotFile.SectionsApart` | crates/distr-hnsw-index/src/snapshot.rs:271-288 | sections are 64-byte aligned, in order, disjoint, and end before the footer |
| `SnapshotFile.SectionAt` | crates/distr-hnsw-index/src/snapshot.rs:309-327 | each section's bytes are where the table says |
| `SnapshotFile.TableTrip` | crates/distr-hnsw-index/src/snapshot.rs:478-504 | the table reads back with every entry within the bounds checked |
| `Layouts.SnapshotHeaderLayout` | crates/distr-hnsw-index/src/snapshot.rs:286-308 | the 128 bytes of a snapshot header, each count at its place and the checksum of the first 124 at the end |
| `Layouts.TableRowLayout` | crates/distr-hnsw-index/src/snapshot.rs:267-284 | the 52 bytes of a section table row |
| `SnapshotFile.ParseTrip` | crates/distr-hnsw-index/src/snapshot.rs:575-761 | parsing the sections gives back every field |
| `SnapshotCodec.SlotsTrip` | crates/distr-hnsw-index/src/snapshot.rs:590-618 | every payload comes back through its accumulated offset |
| `SnapshotCodec.KeysTrip` | crates/distr-hnsw-index/src/snapshot.rs:576-588 | the keys section reads back |
| `SnapshotCodec.RowsTrip` | crates/distr-hnsw-index/src/snapshot.rs:620-632 | the vector rows read back |
| `SnapshotCodec.CodesTrip` | crates/distr-hnsw-index/src/snapshot.rs:634-654 | scales, norms and codes read back |
| `SnapshotCodec.WindowTrip` | crates/distr-hnsw-index/src/snapshot.rs:727-739 | the window reads back |
| `SnapshotGraph.GraphTrip` | crates/distr-hnsw-index/src/snapshot.rs:656-709 | parameters, flat arrays, tombstone words and the upper lists of the slots above level 0 read back |
| `SnapshotLoops.EncodeSlots` | crates/distr-hnsw-index/src/snapshot.rs:176-186 | the loop with its running payload offset writes the slots section |
| `SnapshotLoops.LayOut` | crates/distr-hnsw-index/src/snapshot.rs:271-288 | the cursor loop writes the table and stops where the sections end |
| `SnapshotLoops.LoadSlots` | crates/distr-hnsw-index/src/snapshot.rs:590-618 | the loader's loop reads the slots section |
| `SnapshotLoops.ValidateStructure` | crates/distr-hnsw-index/src/snapshot.rs:775-855 | accepts exactly the snapshots whose every reference agrees |
| `SnapshotWriting.WrittenIsWellFormed` | crates/distr-hnsw-index/src/snapshot.rs:775-855 | every snapshot a valid partition writes passes that check |
| `SnapshotWriting.SnapshotRestoresPartition` | crates/distr-hnsw-index/src/partition.rs:525-568 | encoding a partition's image and loading it gives back its rows, tombstones, key table, key map, slots and window |
| `Rank.TopKUnique` | crates/distr-hnsw-index/src/lib.rs:65-78 | the rank order leaves no choice: there is one top-k list |
| `Rank.TopK.Push` | crates/distr-hnsw-index/src/oracle.rs:57-73 | the heap holds the k best of everything pushed |
| `Rank.OracleSearch` | crates/distr-hnsw-index/src/oracle.rs:83-103 | the oracle returns the ranked top-k of the allowed rows |
| `VisitedSet.Visited.Reset` | crates/distr-hnsw-index/src/hnsw.rs:120-132 | after a reset the reused bitset is the empty set |
| `VisitedSet.Visited.Insert` | crates/distr-hnsw-index/src/hnsw.rs:135-147 | an insert reports whether the slot was new and adds exactly it |
| `Graph.WideBeamIsExact` | crates/distr-hnsw-index/src/hnsw.rs:481-534 | when at most ef accepted slots are reachable, the beam's results are exactly those |
| `Graph.NoBetterNeighbour` | crates/distr-hnsw-index/src/hnsw.rs:481-534 | no accepted neighbour of a result that is not a result ranks before a result |
| `Heuristic.SelectHeuristic` | crates/distr-hnsw-index/src/hnsw.rs:423-457 | selects exactly min(m, candidates) distinct candidates: the diversified ones and then, where room is left, dropped ones, in rank order |
| `Heuristic.DiversifyKeepsSpread` | crates/distr-hnsw-index/src/hnsw.rs:427-457 | a kept candidate is no nearer to one kept before it than to the base, each pruned one is nearer to some kept one, and the nearest candidate is kept |
| `Heuristic.SelectsWhat` | crates/distr-hnsw-index/src/hnsw.rs:423-457 | the selection begins with the nearest candidate; the kept ones come first, none nearer to one kept before it than to the base, and every one after them is nearer to some kept one |
| `Hnsw.Index.Tombstone` | crates/distr-hnsw-index/src/hnsw.rs:262-272 | sets exactly one bit and counts it once |
| `Hnsw.Index.LinkBack` | crates/distr-hnsw-index/src/hnsw.rs:395-421 | the neighbour's list gains the slot at its end while there is room and otherwise becomes the heuristic's choice from the old list and the slot |
| `Hnsw.Index.GreedyClosest` | crates/distr-hnsw-index/src/hnsw.rs:461-477 | ends at a slot no neighbour of which ranks before it |
| `Hnsw.Index.SearchLayer` | crates/distr-hnsw-index/src/hnsw.rs:481-534 | the results are exactly the ef best accepted slots among those visited, only reachable slots were visited, and every neighbour of a result was |
| `Hnsw.Index.Insert` | crates/distr-hnsw-index/src/hnsw.rs:338-391 | keeps lists within capacity, in range, distinct, self-free and level-closed and the entry at the top level; on every shared level the new slot's list is the heuristic's choice from the efConstruction best of a beam entered at the candidates of the level above, at the top one where the greedy descent stops; each chosen slot links back, and no other list changes |
| `Hnsw.Index.ChosenWhat` | crates/distr-hnsw-index/src/hnsw.rs:366-387 | such a list has exactly min(capacity, candidates) slots, begins with the nearest slot visited, has its kept slots before its dropped ones with their spread, and its candidates come from all reachable slots when these are at most efConstruction |
| `Hnsw.Index.SearchWith` | crates/distr-hnsw-index/src/hnsw.rs:556-615 | the landing slot is where one greedy walk per level from the entry down to level 1 stops; hits are distinct live accepted slots with exact distances, the k best visited, and the k best reachable from there when the beam is wide enough, in both traversal modes |
| `Hnsw.Index.ConnectedIsExact` | crates/distr-hnsw-index/src/hnsw.rs:556-615 | where level 0 is connected and the live accepted slots are no more than beam and rescore take in, a traversal by any approximate distance returns their k nearest |
| `Hnsw.SearchMatchesOracle` | crates/distr-hnsw-index/src/oracle.rs:83-103 | a wide enough search whose landing slot reaches every live slot returns what the oracle returns |
| `Hnsw.Index.SearchExactOver` | crates/distr-hnsw-index/src/hnsw.rs:723-741 | the exact route returns the top-k of the allowed live slots |
| `Hnsw.Index.SearchFiltered` | crates/distr-hnsw-index/src/hnsw.rs:696-719 | a small filter is answered exactly; a larger one by a traversal that keeps every promise of `SearchWith`, with live slots the filter admits |
| `Hnsw.Index.LinkLevel0Orphans` | crates/distr-hnsw-index/src/hnsw.rs:1136-1180 | no slot loses its last in-link, a repaired orphan stays repaired, and one is left over only if every neighbour is full of slots without another in-link |
| `Hnsw.Index.CountDegrees` | crates/distr-hnsw-index/src/hnsw.rs:1136-1146 | the in-degree array is the true number of links to each slot |
| `InLinks.RelinkKeeps` | crates/distr-hnsw-index/src/hnsw.rs:1147-1176 | a relink orphans nobody and gives the orphan exactly one in-link |
| `ParallelBuild.EveryInterleavingIsSafe` | crates/distr-hnsw-index/src/hnsw.rs:977-1026 | under every interleaving of per-list locked steps each list stays within capacity, in range and level-closed, and every slot whose insertion finished has links on all of its levels |
| `ParallelBuild.CopyOut` | crates/distr-hnsw-index/src/hnsw.rs:1100-1123 | the copy into fixed-stride arrays never overruns and holds every list |
| `StampText.ParseOfStamp` | crates/distr-hnsw/src/backup.rs:288-332 | parsing a written stamp gives the seconds back, for every second of the years 0000 to 9999 |
| `StampText.StampReads` | crates/distr-hnsw/src/backup.rs:288-310 | read as decimal fields, whatever the year, a stamp has the month and day of its date, an hour below 24, a minute and a second below 60 that make up the second of the day, and where the year has four digits they come first |
| `StampText.StampOrder` | crates/distr-hnsw/src/backup.rs:288-310 | stamps sort as the seconds do |
| `StampText.LastIsNewest` | crates/distr-hnsw/src/backup.rs:959-967 | the last name of a sorted listing is the newest |
| `StampText.FourDigitYears` | crates/distr-hnsw/src/backup.rs:288-310 | the seconds written with four-digit years |
| `Stamp.DatesFollow` | crates/distr-hnsw/src/backup.rs:288-303 | the date arithmetic agrees with the Gregorian calendar on every day |
| `Stamp.CivilOfDay` | crates/distr-hnsw/src/backup.rs:288-332 | the date of a day is on the calendar and leads back to the day |
| `Stamp.DayOfCivil` | crates/distr-hnsw/src/backup.rs:313-332 | the day of a date on the calendar leads back to the date |
| `Quant.DotI8` | crates/distr-hnsw-index/src/quant.rs:54-71 | the laned product is the plain dot product and no 32-bit accumulator overflows up to 65536 dimensions |
| `Quant.DistanceNear` | crates/distr-hnsw-index/src/quant.rs:73-87 | approximate distances differ from the exact ones by at most n/127 times the product of the two largest component magnitudes, twice that for the clamped L2 |
| `Quant.ApproximateDistance` | crates/distr-hnsw-index/src/quant.rs:54-87 | so is the distance the laned loop computes from the stored byte codes |
| `Quant.CodeNear` | crates/distr-hnsw-index/src/quant.rs:30-51 | each code is in range and within half a step of its component |
| `Quant.ScaleExact` | crates/distr-hnsw-index/src/quant.rs:31-51 | no component exceeds 127 steps and one of them reaches it, with the code 127 or -127; only a vector of zeros has the step 0, and then no code but 0 |
| `Quant.TiesAway` | crates/distr-hnsw-index/src/quant.rs:48-51 | a component half-way between two codes gets the outer one |
| `Inventory.List` | crates/distr-hnsw/src/durability.rs:336-410 | a page holds the first stored objects beyond the cursor; skipping prefix directories loses nothing; an error means an entry is out of place |
| `Inventory.ListAll` | crates/distr-hnsw/src/durability.rs:82-93 | following the cursor lists every stored hash exactly once, ascending, and stops |
| `Inventory.ListingAscends` | crates/distr-hnsw/src/durability.rs:412-416 | the walk meets hashes in ascending order |
| `Archive.RestoreSet` | crates/distr-hnsw/src/index_archive.rs:282-330 | refuses exactly the rows that do not parse or lack a manifest, and otherwise returns the manifest, the segments not wholly covered, and the newest snapshot |
| `Archive.RestoredSegments` | crates/distr-hnsw/src/index_archive.rs:310-325 | the segments restored are those from the last one that starts at or before the entry after the newest snapshot |
| `Archive.NewestIsNewest` | crates/distr-hnsw/src/index_archive.rs:296-305 | the snapshot chosen is a row and none is newer |

## Left out

- Floating point: distances are reals, so NaN distances (which sort last), rounding, and normalization are not modelled; storing and preparing a vector are functions the configuration supplies, and preparing a finite vector of the right length is taken to give another.
- Checksums and digests: any function of bytes; that CRC32C or BLAKE3 collide rarely is not used anywhere.
- Runs.AckedSurvive: stated for guarded runs; `Runs.TruncationSafeExactly`, `Runs.OpenRests` and the runs of `Findings` say what happens otherwise. The guard of snapshot damage is that what is acknowledged is durably held from another starting point.
- Smooth.EveryOpenExactly: stated for careful runs, which do not truncate below a snapshot that is not durable, take a snapshot of entries not synced, or go on behind something undurable; the condition on the bytes behind the newest segment's entries is not removed, since a torn write may end in bytes that read as a frame.
- Disk.MayLeave: damage to synced bytes of a log segment is not a power loss; damage to snapshots is an action of its own.
- Restoring.RestoreRecoversSame: the recorded files are taken to be those the directory holds; uploading, downloading and hashing them is not modelled.
- System.EveryStep: sequence numbers stay below 2^64; the overflow of a log of that length is not modelled.
- Partitions.Partition.Recover: the graph of the loaded snapshot and of a finished build are arguments; the checks of a snapshot's dimensions, metric and parameters against the manifest, the manifest itself and the directory lock are not modelled.
- Partitions.Partition.Upsert: the answer of the RAM budget check is an argument.
- Hnsw.Index.Insert: the level of a slot is an argument; the level distribution is not modelled.
- ParallelBuild.EveryInterleavingIsSafe: what a worker's own searches find is any list of slots on the level, which covers every order of its reads; duplicate links and self-links are therefore allowed, as the code allows them.
- Hnsw.Index.SearchWith: that every slot is reachable is not claimed; neither builder guarantees it.
- SnapshotFile.LoadOfEncode: for images whose numbers fit the fields of the format and files below 2^64 bytes; silent truncation of wider values is not modelled.
- SnapshotFile.WellFormed: upper neighbours are checked for range only, as in the code, so level-closedness is a property of graphs this code built, not of any loaded file.
- Snapshot replacement: mapping the rows back from the written file is not modelled.
- The manifest, backup targets, HTTP agents, access control, lifecycle, durability accounting of used bytes, and the prototype and bench trees.
