# Crash consistency and cache coherence of a whole-file-caching file system

The repository is an AFSv1-style file system. A FUSE client (`afs_client.cc`) keeps whole files in a
cache directory, together with two small persistent tables: which cache files are dirty, and which
server timestamp each cache file carries. A server (`afs_server.cc`) receives an upload into a temporary
file and renames it into place. The project models both programs and proves what the README promises
of them (`README:47-73`): crash consistency of the client, atomic updates on the server, last writer
wins, and a cache that is used only when it is valid. Where the code does not keep a promise, the
project proves a concrete input on which it fails and, where the promise can be saved, exactly when
it holds.

## How the model is built

| file | what it holds |
|---|---|
| `Basics.dfy` | bytes, options, the hex cache file name |
| `Chunks.dfy` | the 65500-byte message loops and their reassembly |
| `Records.dfy` | the two on-disk record formats, read byte by byte as the stream calls do |
| `Replay.dfy` | replay of records; why replaying a log twice does no harm |
| `Counter.dfy` | the uninitialised snapshot counter |
| `IsDirtyTable.dfy`, `StampTable.dfy` | the classes `is_dirty_t` and `last_modified_t`, with the disk after every effect |
| `TableRuns.dfy` | runs of operations, crashes and restarts of one table; the bound on its log |
| `Tombstones.dfy` | the window between a snapshot's rename and the log's truncation |
| `Protocol.dfy` | one client on one path as an automaton, and all clients and the server together |
| `Invariant.dfy` | the invariant, kept by every step and so by every run |
| `Theorems.dfy` | coherence, last writer wins, monotonic opens, close-to-open |
| `Recovery.dfy` | unsaved writes, read your close, all-or-nothing release |
| `Limits.dfy` | where the promises end, and exactly when |
| `Progress.dfy` | what each callback comes to when nothing disturbs it; close-to-open end to end |
| `World.dfy` | all paths together |
| `ServerMachine.dfy` | the server inode by inode with concurrent `Write` handlers; atomic publication |
| `Overlap.dfy` | exactly when concurrent `Write`s of one path do harm |
| `Refinement.dfy` | clients and server machine together are a run of the protocol |
| `AfsServer.dfy`, `AfsClient.dfy` | the RPC handlers and FUSE callbacks as methods, tied to the machines above |

The layers meet as follows. The table classes are proved to recover, at every crash point, to the table
before or after the operation in flight. The methods of `AfsClient` are proved to take a path's state
through exactly the inputs of the protocol's automaton, effect by effect: after every durable effect of
a callback, be it one inside a table's snapshot, the disk is that of the automaton after some of those
inputs, and a start from that disk is the automaton's restart. The server machine, with its
mutex, temporary files, renames and interleaved handlers, together with the clients is proved to be a
run of the protocol in which an upload is one atomic commit with a new timestamp.

A run is a sequence of events of any length. Events that cannot happen in a state change nothing, so
every sequence is a run. Ghost fields such as `history`, `log`, `seen` and `torn` are bookkeeping
for stating properties; no step depends on them, except that commits require a timestamp not used
before and that a read is tagged with the number of the version it returned.

## Assumptions

- Every change of an inode has an instant of its own; a timestamp is never given twice.
- The digest separates the paths in use (`NamesCollideIff` shows this is exactly what separate cache
  names need).
- A client has at most one open handle for a path, and callbacks on one path do not overlap inside one
  client. Other paths and other clients interleave freely.
- On the server, no handler opens a path's temporary file while another with its stream complete is
  still to rename it, or the mutex is held through the rename; `Overlap.dfy` says what happens
  otherwise. `GetContent` opens and stamps one version; `CommitBetweenOpenAndStat` says what happens
  otherwise.
- The server sends timestamps of `sizeof(struct timespec)` bytes, which tell the instants of a run apart.
- A record is appended to a table's log whole (`README:60`, a block write is atomic). `TornAppendReloadsIff`,
  `TornAppendReusesValue` and `TornAppendAborts` show what a torn append would do.
- A stream that is cut short is seen as failed by the client and as cancelled by the server.
- The server can open its temporary files; a `FilepathContent` stream has a first message.

## Where the code and its documentation differ

- "No mixing write can occur" (`README:52`): the mutex is released before the timestamp is taken and the
  file renamed (`afs_server.cc:141-152`), and writers of one path share a temporary file. A half-written
  file can be published (`TornFileIsPublished`). `SafeIffClashFree` says exactly when: a run is safe
  if and only if no handler opens the temporary file of a path while another whose stream is complete
  is still to rename it. Holding the mutex through the rename is enough to repair it.
- "Client only uses cache if timestamps match" (`README:56`) does not say that the cached file exists.
  `afs_unlink` removes the file before its timestamp (`afs_client.cc:614-615`); after a crash in
  between, the next open reports success on a dead handle, because `fi->fh < 0` is never true of an
  unsigned field (`UnlinkWindow`). `StrayIff`, `EverStrayIff` and `HitIsLiveIff` say over whole runs
  that this crash, not mended since, is exactly when it happens.
- "Client can distinguish if cache is up-to-date & dirty after recovery" (`README:59`, `README:69`): an open whose `Stat`
  fails compares the stored timestamp with an empty string and deletes the cached copy, dirty or not
  (`afs_client.cc:395-413`). `UnsavedWritesSurviveIff` gives the exact condition.
- A file that the server does not have is stored with a timestamp of 22 bytes (`afs_client.cc:40`,
  `afs_client.cc:451`), which the record format cannot hold: as long as such a record is in the snapshot
  or the log, be it that a later one replaced the value, every start of that client aborts
  (`LocalRecordAborts`, `RecoversIff`). A snapshot taken when no path has that value ends it.
- Replaying an erasure of an absent key inserts a tombstone (`afs_client.cc:193-200`), so recovery of
  `last_modified_t` is exact only up to tombstones (`TombstoneRun`); `WindowExactIff` says for which
  tables and logs it is exact.
- Close-to-open visibility (`README:49`) holds for clean copies of server files. A client that holds a
  dirty copy with the current timestamp keeps being served its own bytes, and an open of a file marked
  as local never asks the server; `OpenIsRecorded` says that these are the only two exceptions.

## Model

| member | source | states |
|---|---|---|
| Hashing.HexRoundTrip | afs_client.cc:52-56 | the digest can be read back from the printed name, for digests of any length |
| Hashing.NamesCollideIff | afs_client.cc:44-57 | two paths share a cache name if and only if the digest does not separate them |
| Hashing.HashPath | afs_client.cc:44-57 | the printing loop computes the name: 64 characters, for each byte of the digest its high and its low half as digits of "0123456789abcdef", zeros included |
| Hashing.HexDigits | afs_client.cc:52-56 | the two characters printed for any byte of a digest of any length |
| Chunks.TransferRoundTrip | afs_client.cc:490-513 | splitting any file into messages and appending them in order reproduces it, the empty file and exact multiples of 65500 included |
| Chunks.ChunkShape | afs_server.cc:80-96 | exactly n / 65500 + 1 messages, all but the last full, the last shorter |
| Chunks.ChunkShapeUnique | afs_server.cc:80-96 | no other full-then-short message list carries the same bytes |
| Chunks.SendFile | afs_client.cc:490-513 | the upload loop sends the messages of the file, or the first k of them when the stream takes only k: min(k, n / 65500 + 1) messages, an empty last one included |
| Chunks.ReceiveFile | afs_client.cc:430-436 | the append loop ends with the concatenation of all messages received |
| DirtyCodec.ParsePrinted | afs_client.cc:73-93 | printed dirty-flag records in front of any bytes are read back, and what follows is read as if it stood alone |
| DirtyCodec.RoundTrip | afs_client.cc:73-93 | reading any printed list of dirty-flag records returns that list |
| DirtyCodec.TornAppendReloadsIff | afs_client.cc:121-122 | what a log whose last append was cut after n bytes reads as: without the record if nothing was written, with it if only the newline is lost, and not at all otherwise |
| DirtyCodec.PrintedBytes | afs_client.cc:121-137 | the bytes of a record, literally: name, space, 0, 1 or 2, newline |
| DirtyCodec.OtherLines | afs_client.cc:73-92 | a 66-byte line with any other flag is skipped, a line of another length ends the process |
| StampCodec.ParsePrinted | afs_client.cc:183-201 | as for dirty flags, for raw 16-byte values that may contain newlines, whatever the read buffer held before |
| StampCodec.RoundTrip | afs_client.cc:183-201 | reading any printed list of timestamp records returns that list |
| StampCodec.LocalRecordAborts | afs_client.cc:451 | wherever a record with the 22-byte local marker stands, whatever follows it, reading the file ends in assert(false) |
| StampCodec.PrintedBytes | afs_client.cc:229-245 | the bytes of a record, of the local mark and of an erasure, literally |
| StampCodec.ReadsIff | afs_client.cc:183-201 | a file of printed values, 16-byte timestamps and local marks, is read back exactly if no mark is among them and not at all otherwise |
| StampCodec.ScanPrinted | afs_client.cc:229 | printed entries of both lengths are determined by the bytes of the file, whatever follows them |
| StampCodec.TornAppendReusesValue | afs_client.cc:229 | if only the key half of a record reached the log, the next start gives that key the previous record's value |
| StampCodec.TornAppendReads | afs_client.cc:183-201 | what a log whose last append was cut after any number of bytes reads as: no log at all if the name is cut, else the record with the bytes of the value read before it for those not written |
| StampCodec.TornAppendAborts | afs_client.cc:183-189 | once anything is appended after such a half record, no later start succeeds |
| Replay.ReplayAt | afs_client.cc:79-88 | after a replay, a key the records mention has an entry independent of the start table, and other keys keep theirs |
| Replay.ReplayAbsorbsPrefix | afs_client.cc:147-158 | replaying a log over a state that already includes any prefix of it gives the same table as over the old state |
| Replay.ReplayIdempotent | afs_client.cc:154-157 | replaying a log over a snapshot that already contains it changes nothing: the rename-then-truncate window is safe |
| Replay.SnapshotOrderFree | afs_client.cc:148-152 | a snapshot rebuilds its table whatever order the hash map was iterated in |
| Counter.FirstSnapshotWithinTen | afs_client.cc:125-165 | from any initial int below INT_MAX, negative ones included, one of the first ten changing sets takes a snapshot |
| Counter.SnapshotIff | afs_client.cc:125-165 | from any initial int, the n-th changing set takes a snapshot if and only if it brings the count up to a multiple of ten |
| Counter.ThenEveryTenth | afs_client.cc:125-126 | after a snapshot the next one comes with the tenth changing set and not before |
| DirtyTable.HoldsAppend | afs_client.cc:119-122 | appending one record to a disk holding table t makes it hold t with that record applied |
| DirtyTable.HoldsRenamed | afs_client.cc:147-158 | after the rename of a complete temporary file, and again after the truncation of the log, the disk holds the same table as before |
| DirtyTable.IsDirtyTable.LogBound | afs_client.cc:114-140 | after a snapshot, at every operation boundary the log has at most 9 changing sets and at most 18 records more than the snapshot |
| DirtyTable.IsDirtyTable.ReloadFile | afs_client.cc:68-94 | the reading loop succeeds if and only if the whole file parses, and applies exactly the records of the file, in order |
| DirtyTable.IsDirtyTable.Restart | afs_client.cc:61-98 | a start succeeds if and only if both files parse; from a disk that holds a table it rebuilds that table |
| DirtyTable.IsDirtyTable.Set | afs_client.cc:114-127 | the table changes at that path only; the first disk has exactly this record appended, all disks passed through hold the new table, and there are more than one only with the snapshot that the counter calls for, whose last but one has the whole log beside the new snapshot; a set that changes nothing touches no disk and no counter |
| DirtyTable.IsDirtyTable.Erase | afs_client.cc:133-140 | exactly the erasure is appended, and only for a key that is there; the disk holds the new table; the counter never moves |
| DirtyTable.IsDirtyTable.DoSnapshot | afs_client.cc:142-161 | every intermediate disk, with any number of whole entries in the temporary file, holds the table (any other content of that file is TmpIgnored); at the end the log is empty and the snapshot has one record a key |
| DirtyTable.TmpIgnored | afs_client.cc:65-68 | whatever bytes a crash leaves in the temporary file, a start finds the same table |
| LastModifiedTable.QuirkCommutes | afs_client.cc:193-200 | dropping tombstones turns the quirky replay into the plain replay of puts and deletes, for every table and log |
| LastModifiedTable.SnapshotExact | afs_client.cc:274-275 | a snapshot, stored tombstones included, rebuilds exactly its table in any order |
| LastModifiedTable.RecoversIff | afs_client.cc:171-206 | a disk the program left can be read if and only if no mark of a local file is in either of its files, and then it yields the table up to tombstones |
| LastModifiedTable.LocalIsMarked | afs_client.cc:451 | a table with a local file stands on a disk with that mark, so its next start fails |
| LastModifiedTable.HoldsRenamed | afs_client.cc:280-284 | replaying the log over a snapshot that contains it changes no live entry; the marks left are those of the table and of the log |
| LastModifiedTable.HoldsTruncated | afs_client.cc:273-284 | after the truncation the disk stands for exactly the table, and its marks are the local files of the table |
| Tombstones.TombstoneRun | afs_client.cc:222-248 | erasing one path and then setting another passes through a disk, between rename and truncation, from which the erased key comes back as a tombstone |
| Tombstones.ReplayToggles | afs_client.cc:193-200 | what a replay makes of one key, for every table and log: erasures after its last set toggle it between absent and tombstone |
| Tombstones.WindowExactIff | afs_client.cc:280-284 | recovery between rename and truncation yields exactly the table if and only if every key passes a count: no final erasures, or a number of them with the right parity given whether the log also sets the key |
| LastModifiedTable.StampTable.LogBound | afs_client.cc:222-248 | the bound on the log, for the timestamps |
| LastModifiedTable.StampTable.ReloadFile | afs_client.cc:178-202 | the loop with its reused value buffer succeeds if and only if the file parses and replays exactly its records with the quirk |
| LastModifiedTable.StampTable.Restart | afs_client.cc:171-206 | a start succeeds if and only if both files parse, that is if no local mark is on the disk; from a disk that holds a table it rebuilds that table up to tombstones |
| LastModifiedTable.StampTable.Set | afs_client.cc:222-235 | the table changes at that path only; for timestamps and local marks every disk passed through holds the new table and has no mark but those before and that of this record; a snapshot leaves the marks of the table |
| LastModifiedTable.StampTable.Erase | afs_client.cc:241-248 | as Set for an erasure; the counter and the marks never move |
| LastModifiedTable.StampTable.Snapshot | afs_client.cc:268-290 | every intermediate disk holds the table up to tombstones and no new mark; the last but one has the whole log beside the new snapshot; the final one is exact, with an empty log |
| DirtyRuns.CrashRun | afs_client.cc:61-161 | for any sequence of operations, crashes at any disk effect and restarts, the recovered table is what the operations whose append was made describe, an operation in flight counting as done if and only if its append was made |
| DirtyRuns.Session | afs_client.cc:114-140 | from any counter, once ten sets have changed something, the log exceeds the snapshot by at most 18 records, however many erases there were; the counter has moved by the changing sets alone |
| StampRuns.PerformLive | afs_client.cc:222-248 | up to tombstones an operation depends on the live entries alone; setting sixteen 0xFF bytes erases |
| StampRuns.CrashRun | afs_client.cc:171-290 | for any operations on timestamps and local marks, crashes and restarts: up to tombstones the disk means what the operations whose append was made describe; a start fails if and only if a mark is on the disk, and only sets of that value put one there |
| StampRuns.Session | afs_client.cc:222-248 | the bound on the log over a session, for timestamps and local marks |
| Invariant.CellKeeps | afs_client.cc:371-704 | every input, crash included, at every point of every callback keeps the invariant of a path, provided the server answers with what it holds |
| Invariant.OpenEndKeeps | afs_client.cc:443-457 | the window in which a new timestamp is set and the old dirty flag not yet cleared is safe |
| Invariant.ReleaseStepKeeps | afs_client.cc:525-527 | the window in which the dirty flag is cleared and the timestamp still names the old version is safe |
| Invariant.CrashKeeps | afs_client.cc:61-98 | a client crash and restart keeps the invariant from any point of any callback |
| Invariant.CommitKeepsCell | afs_server.cc:147-152 | a commit turns every timestamp any client holds into an old one and keeps the invariant of every client |
| Reachable.NextInv | afs_client.cc:371-704 | every event of the whole system keeps the invariant for every client at once |
| Reachable.RunInv | afs_client.cc:371-704 | the invariant holds after every run |
| Theorems.CacheCoherence | afs_client.cc:397-400 | in every reachable state a clean cached copy whose timestamp is the server's holds the server's bytes, and no half download carries a timestamp the server ever gave |
| Theorems.LastWriterWins | afs_client.cc:371-704 | in the protocol versions form an append-only history and the server holds the last one or none (for the order of renames on the server see SystemIsCoherent) |
| Theorems.FileIff | afs_client.cc:618-620 | at every moment of every run the server has the file if and only if some commit has no completed unlink after it |
| Theorems.FileIsLast | afs_server.cc:152 | it then has the version of the last commit |
| Theorems.FailureMovesNothing | afs_client.cc:529-533 | a failed RPC or system call, at any point of any callback, changes neither cache file, tables nor handle and ends the callback, except that an open without an answer goes on to evict |
| Theorems.HalfDownloads | afs_client.cc:428-445 | a cache file counts as half downloaded from the first message until it is complete, removed or replaced by an empty one, across crashes |
| Theorems.OpensAreFreshAndMonotonic | afs_client.cc:392-447 | every clean, server-checked open returned the bytes of a version at least as new as the last commit before it began, and one client's opens never go back |
| Theorems.NextCell | afs_client.cc:371-704 | an event changes a client's state only by the input it delivers to that client |
| Theorems.CloseToOpen | README:49-56 | after n commits every recorded open of any client has version n or later, and exactly the last released bytes if nothing was committed since |
| Theorems.OpenIsRecorded | afs_client.cc:380-468 | an open that ends with a live handle is one of the recorded opens, with the bytes handed out, if and only if the copy is clean and not that of a local file |
| Theorems.OpenedIsFresh | README:49-56 | close-to-open for the handle: a client idle after the n-th commit that gets a live handle on a clean server file has the bytes of version n or later, exactly the last released ones if nothing was committed since |
| Recovery.OthersLeave | afs_client.cc:371-704 | whatever other clients, the server and snapshots for other paths do, a client that awaits no reply to an upload keeps its state, but for the mark |
| Recovery.WriteIsUnsaved | afs_client.cc:696-704 | after the flag is logged, before and after the bytes are written, the copy is an unsaved copy of its version |
| Recovery.UnsavedWritesSurviveIff | afs_client.cc:395-413 | after a crash at any point the next open returns the modified bytes if and only if no local mark keeps the client from starting, the open reaches the server, and it finds the version they were made on; otherwise no handle is returned and a named copy is deleted |
| Recovery.CloseUploadsThem | afs_client.cc:471-527 | the close of such a copy starts an upload whose messages join to exactly the modified bytes |
| Recovery.ReadYourClose | afs_client.cc:525-527 | after a dirty release with no later commit the same client's next open is a cache hit on a clean copy equal to the server's bytes |
| Recovery.ReleaseIsAllOrNothing | afs_client.cc:471-533 | while no other client has a modified copy, whoever opens, closes, crashes, fails and restarts, in any order, the server holds the whole old content, or still no file if it had none, or the whole new one, and the coherence invariant holds |
| Recovery.BeforeRelease | afs_client.cc:471-477 | a client about to close a modified copy, with or without a file on the server, is where that result starts |
| Limits.StrayOnlyByCrash | afs_client.cc:605-616 | a step takes a client outside afs_unlink to a server timestamp without a cache file if and only if it is a crash between the removal of the file and that of the timestamp |
| Limits.StrayIff | afs_client.cc:614-615 | over whole runs: a client is in that state if and only if it crashed there at some moment and has been in it ever since |
| Limits.EverStrayIff | afs_client.cc:614-615 | a run has a moment with a client in that state if and only if it has such a crash |
| Limits.HitIsLiveIff | afs_client.cc:397-408 | a cache hit hands out a live handle if and only if the cache file exists, that is unless such a crash came before and nothing has mended it |
| Limits.UnlinkWindow | afs_client.cc:397-408 | a run that ends with a cache hit on a file that is not there and a dead handle |
| Limits.CommitBetweenOpenAndStat | afs_server.cc:65-78 | if a commit falls between opening and stamping, the client ends clean and named, and coherent if and only if the two versions have the same bytes |
| Progress.OpenCompletes | afs_client.cc:371-469 | from any state the invariant allows, an undisturbed open of a server file ends with a live handle on a clean copy of exactly its bytes, unless the client keeps a modified copy of that very version, lost that copy's file, or has the path as a local file |
| Progress.OpenCreates | afs_client.cc:449-468 | an undisturbed open of a file the server does not have ends with an empty, clean, local one |
| Progress.ReleaseCompletes | afs_client.cc:471-540 | an undisturbed close of a modified copy makes one new version of exactly its bytes the server's file and leaves the copy clean under its timestamp |
| Progress.MknodCompletes | afs_client.cc:558-603 | an undisturbed mknod of a path that neither side has leaves an empty file on both, under one timestamp |
| Progress.UnlinkCompletes | afs_client.cc:605-625 | an undisturbed unlink leaves no file, timestamp or flag here and no file on the server |
| Progress.CloseThenOpen | README:49 | one client's close and then another's open end with exactly the released bytes in the opener's hands, whatever it had cached, modified or not |
| World.WorldRunProjects | afs_client.cc:44-57 | a run over all paths, with crashes hitting every path at once, is on each path a run of that path |
| World.RunIsWorldRun | afs_client.cc:371-704 | conversely every run of one path without client crashes is, on that path, a run over all paths |
| World.MarksDropped | afs_client.cc:268-290 | a client without local files whose snapshot was taken starts again after a crash |
| World.RestartIsAllOrNone | afs_client.cc:183-189 | a restart brings a client up on every path or, for good, on none, according to whether a local mark is on its disk for any path |
| World.WorldCoherence | README:55-56 | coherence for every client and every path in every run of the whole system |
| AtomicPublication.NextKeeps | afs_server.cc:115-156 | every server step, power failure included, keeps the disk and handler invariant under either discipline |
| AtomicPublication.PublishedIsOneStream | README:50-52 | in every reachable state, server crashes included, every published file is the whole of one uncancelled stream, the last renamed, under the timestamp its client was sent |
| AtomicPublication.StampsAreUnique | afs_server.cc:147-149 | no two publications, on one path or two, carry the same timestamp |
| AtomicPublication.PublishedNeverChanges | afs_server.cc:62-97 | a published inode never changes again, so a download that opened it reads one version to its end |
| AtomicPublication.PowerOffKeepsDisk | README:70-73 | a power failure loses the handlers and nothing on the disk, and frees the mutex |
| AtomicPublication.MutexIsNotLost | afs_server.cc:121-141 | in every reachable state, under any discipline, the mutex is held only by a handler that is still there and has opened its file |
| AtomicPublication.StepIsAtomicCommit | afs_server.cc:147-152 | a step shows on a path only as the rename of a complete stream under a timestamp never used before, or as its unlink |
| AtomicPublication.TornFileIsPublished | afs_server.cc:121-152 | a run of the code as written in which a half-written file is published for another writer's stream and then changes under its name |
| OverlappingWrites.ClashFreeKeeps | afs_server.cc:115-156 | a run of the code as written without a clash keeps the whole invariant of atomic publication |
| OverlappingWrites.ClashTears | afs_server.cc:121-152 | from any safe state a clash can be followed, by handlers already under way alone, to one about to reply success for a file that is not there to rename, after its bytes went into another stream's publication |
| OverlappingWrites.SafeIffClashFree | afs_server.cc:115-156 | a run of the code as written contains no clash if and only if at no moment of it the handlers under way could tear a published file |
| Refinement.StepRefines | afs_server.cc:115-199 | every step of clients and server machine, seen at one path, is the event of the protocol it stands for or none: a client's step is itself, messages arrive, cancellations drop, renames commit under new timestamps, power failures are crashes |
| Refinement.RunRefines | README:63-72 | every run of clients and server machine, seen at one path, is a run of the protocol whose history is the projected log of renames |
| Refinement.SystemIsCoherent | README:50-56 | over the server with its inodes, mutex and concurrent handlers: it shows the version renamed last, whole, or none; a clean copy named by its timestamp has its bytes; every recorded open returned a renamed version |
| Refinement.PublishedAfter | afs_server.cc:152-199 | one step of the system publishes a file if it is a rename, removes it if it is a client's unlink that reaches the server, and else leaves it |
| Refinement.PublishedIff | afs_server.cc:191-199 | over runs of the server as built, the path has a published file if and only if some rename has no completed unlink after it |
| AfsService.AfsServer.Receive | afs_server.cc:118-141 | truncating and appending every message is a run of the server machine up to a handler that has written its whole stream |
| AfsService.AfsServer.Write | afs_server.cc:115-156 | a cancelled stream publishes nothing; any other one publishes exactly its bytes under the replied timestamp; all other paths keep their inodes and bytes |
| AfsService.AfsServer.GetContent | afs_server.cc:62-98 | no file if and only if none is published; otherwise its timestamp and min(k, n / 65500 + 1) of its messages, one even for an empty file, joining to its bytes when all are taken |
| AfsService.AfsServer.Stat | afs_server.cc:157-190 | the timestamp of what clients can see at the path, none if there is no file |
| AfsService.AfsServer.Unlink | afs_server.cc:191-199 | the path shows nothing, all other paths are unchanged, and the call succeeds if and only if there was a file |
| AfsService.OthersDoStay | afs_server.cc:115-156 | between two states of the invariant with a longer log, published inodes of untouched names keep their bytes and timestamps |
| AfsClientOps.ReceiveSteps | afs_client.cc:434-436 | after n messages the automaton's cache file is the concatenation of the first n |
| AfsClientOps.FeedMiss | afs_client.cc:410-422 | a missing or outdated timestamp leads to a download with timestamp and cache file gone first |
| AfsClientOps.FeedRelease | afs_client.cc:471-548 | what a whole release does to a path's state, dirty or clean, uploaded or failed, snapshot or not |
| AfsClientOps.StampEffects | afs_client.cc:222-235 | every disk a set timestamp passes through, snapshot included, is that of the automaton after its step or after the snapshot that follows, and other paths lose at most a mark |
| AfsClientOps.KeptIsSnapshot | afs_client.cc:268-290 | to another path's automaton such an effect is nothing or a snapshot |
| AfsClientOps.AfsClient.Start | afs_client.cc:61-98 | a start from any readable disk fails if and only if a local mark is on it; otherwise it restarts the automaton of every path at once |
| AfsClientOps.AfsClient.CrashInside | afs_client.cc:371-704 | a crash after any durable effect of a callback, and the next start, is the automaton's crash after some of the callback's inputs |
| AfsClientOps.AfsClient.Fetch | afs_client.cc:417-468 | the download part of an open goes, effect by effect, through the automaton's inputs, for complete, partial, absent and failed downloads |
| AfsClientOps.AfsClient.Open | afs_client.cc:371-469 | the whole open does so, hit or miss, timestamp erased before the file; it succeeds if and only if the path ends with a handle |
| AfsClientOps.AfsClient.Write | afs_client.cc:696-704 | flag first, then bytes, whether or not pwrite succeeds: the disk after each effect is that of the automaton after a prefix of its two inputs |
| AfsClientOps.AfsClient.Release | afs_client.cc:471-548 | a dirty copy is sent in min(k, n / 65500 + 1) messages, one even if it is empty, joining to its bytes when all are taken, and nothing is sent otherwise; the flag is cleared before the timestamp is set, effect by effect as in the automaton; the process exits if and only if a dirty copy has no file |
| AfsClientOps.AfsClient.Unlink | afs_client.cc:605-625 | cache file, timestamp and flag go in this order, effect by effect as in the automaton; the call fails if and only if the server was reached and had no such file |
| AfsClientOps.AfsClient.Mknod | afs_client.cc:558-603 | an existing file (or an unreachable server) changes nothing, sends nothing and is an error; otherwise an empty file first, sent as one empty message and named once its upload is answered, effect by effect as in the automaton |

## Left out

- FUSE glue, argument parsing, the two `main` functions, and the gRPC channel, deadlines and status codes: an RPC here succeeds, fails or is cancelled.
- `afs_truncate` and `afs_ftruncate`: they change a cache file without setting the dirty flag, so a clean copy would differ from the version its timestamp names.
- `afs_getattr`, `afs_readdir`, `afs_mkdir`, `afs_rmdir`, `afs_fsync`, `afs_read`, `Ls`, `Mkdir`, `Rmdir`: each wraps one system call or RPC.
- `GetMeta`, `readFileIntoMap` and the debug overload of `cachepath`: obsolete code.
- The computation of SHA-256: the digest is a parameter of 32 bytes.
- File permissions, errno values and their sign, console logging and timing.
- The mutex that stays locked when a temporary file cannot be opened (`afs_server.cc:123-126`): the results here are about safety, not progress.
- The first `Read` of an upload that carries no message at all, which would name the empty path.
- Values of the timestamp table other than 16-byte timestamps and the local mark, which the client never stores: StampTable.Set then promises the table in memory only.
- A client that calls exit(1) on one path (`afs_client.cc:488`) is restarted on that path; steps it could not take meanwhile on other paths are among the runs proved safe.
- AfsService.AfsServer.Write: one handler at a time; handlers that interleave are runs of ServerMachine.
- A download is durable message by message, as if no stream buffer held bytes back; order and buffering of disk writes below the level of a file's bytes and names.
- `grpc_example/`, `measurement/`, `test.cc` and `fuse-tutorial-2018-02-04/`: drivers, copies of the message loop and third-party code.
