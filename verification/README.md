# SyncedFS, verified

SyncedFS replicates a directory tree asynchronously. A FUSE layer appends every successful operation to a log, without
the data of writes. From time to time a client switches the log, reduces it to one operation list per path, optimizes each
list, reloads the data of the surviving writes from a snapshot and sends everything in chunks. A server replays the chunks
and keeps a snapshot of its own, so that a crash never leaves it with half an epoch.

The model follows that path from one end to the other. What it proves, in short:

* **One epoch.** For every valid log, running the whole chain (load, reduce, match inodes, sort, optimize, chunk, replay)
  takes the server's tree to the client's tree *if and only if* no directory loses its attributes
  (`Pipeline.SynchronizeTrees`, `TreeSync.EpochSync`). The exception is real: a directory that is removed and made again
  while an old entry of it is also deleted and made again keeps its old mode and owner on the server, because the new
  directory is sent first and the server's `rmdir` fails on a directory that is not empty (`LostMode.ModeIsLost`).
* **The optimizer** moves all truncates in front of all writes, clips by the last truncate only and takes the data from
  the client's *final* file. Replaying its result on the old content gives exactly the final content, and replaying it
  twice changes nothing (`FileReplay.OptimizedFile`, `FileReplay.FileAgain`).
* **Many epochs with crashes.** In every run with server crashes or lost connections between any two steps, whenever the
  server confirms an epoch its tree is the client's tree at the end of that epoch: exactly, as long as no directory has lost
  its attributes, and ever after that in everything but modes and owners of directories (`Epochs.ServerFollowsClient`).
  From any state a server crash leaves behind undisturbed steps finish the epoch (`Epochs.ServerCatchesUp`).
* **The log switch.** In every interleaving of the signal handler with the logging of records, no record is lost,
  doubled or torn by the switch, and a request is answered exactly once (`LogSwitch.NoRecordLost`, `LogSwitch.AnsweredOnce`).
* **The hash table** underneath refines an insertion-ordered collection under add, delete and doubling of the buckets, and
  its merge sort is a stable sort of that list.

## How the project is laid out

| file | about |
|---|---|
| `Operations.dfy`, `Posix.dfy` | operations; files as byte sequences with `pwrite` and `truncate`, nodes, trees |
| `Optimizer.dfy`, `OptimizeInPlace.dfy`, `OptimizerLaws.dfy` | `optimizeOperations`: what it computes, in place on the vector, and its laws |
| `FileReplay.dfy`, `NodeReplay.dfy` | replay of an optimized list on one file and on one node |
| `Reducer.dfy`, `TableSteps.dfy`, `ReducerLaws.dfy` | `addOperation` on the two tables, what one operation does to each path and inode, and what every log keeps true |
| `History.dfy`, `TreeSync.dfy`, `LostMode.dfy` | the tables follow the client's tree; the server's tree after an epoch; the exception |
| `Drift.dfy` | a server that differs from the client by the exception: nothing else ever differs |
| `Inodes.dfy`, `SecondEntry.dfy` | `matchInodefiles`; a log after which it makes a second entry for a path |
| `Chunks.dfy`, `Transfer.dfy`, `ReplayServer.dfy` | chunks, the sender with its growing buffer, the server's loops and handlers |
| `Effects.dfy` | the tree after each replayed operation, spelled out |
| `Framing.dfy`, `LogLoading.dfy`, `LogSwitch.dfy` | the length-prefixed log, loading it, switching it under signals |
| `Recovery.dfy`, `Epochs.dfy` | snapshot and sync-id protocol with crashes; the same fed with real epochs |
| `Links.dfy`, `HashTable.dfy`, `MergeSort.dfy` | `uthash` |
| `Pipeline.dfy` | one epoch put together |
| `Seqs.dfy`, `Wrappers.dfy` | sequences, `Option` |

Code that updates objects in place is modelled by classes (the client's tables, the optimizer's vector, the send buffer, the
pack buffer, the server's tree, the hash table, the sorted list); each method is proved against a function or an
abstract value about which the laws are then proved. The two protocols that something can interrupt at any moment, the log
switch and the server's recovery, are state machines over single steps.

The results start from a *valid log*: every record is an operation that succeeds on the client's tree at its position.
`LostMode.Valid` and `SecondEntry.LinksAreLogged` show two; and `OptimizeInPlace.FileOp.OptimizeOperations` produces an optimized form of every list.

`dafny verify dfyconfig.toml` checks everything.

## Where the code and its intention differ

* Sync-ids are compared by pointer (`syncedfs-daemon/server.c:255` and `:272`), so a server never recognizes an epoch it has
  already finished. The model follows the code: the epoch is replayed, and is proved to be idempotent instead.
* A failed `stat` in `matchInodefiles` (`syncedfs-daemon/client.c:523-533`) goes on with the inode of the file before, or
  an undefined one. Modelled as: no inode.
* `matchInode` gives the next order to the entry it is about to free (`syncedfs-daemon/client.c:496`), so the entry it adds
  has order -1 and is sent among the deletions. The model does the same; claims about order are about the table before
  this step.
* The removal of a symbolic link is logged with link count and inode of the file it points to, because `stat` follows it
  (`syncedfs/syncedfs.c:195`, `syncedfs/log.c:184-198`). If that file has other names, the operations of the link are kept under its inode; and if the
  inode number belongs to a file of another file system, the walk can hand them to a path that has an entry already. Two
  entries of one path are against the intention of the table; `Inodes.OneEntryEach` says exactly when it happens, and
  `SecondEntry.SymlinkCollides` and `SecondEntry.WrongTarget` show a log after which the server makes a link to the wrong
  file.
* `f->order` is read at `syncedfs-daemon/client.c:223` although `f` may be NULL there, and `f->created` at `:299` after `free(f)` at
  `:272`. Modelled as guarded, and as the value before the `free`.
* The comparator answers -1 for NULL against NULL in both directions (`syncedfs-daemon/optimization.c:18-21`). NULLs are
  equal in the model. `qsort` is a method of whose contract only "a sorted permutation" is used.

## Model

| member | source | states |
|---|---|---|
| Optimizer.ComparatorMeaning | syncedfs-daemon/optimization.c:11-48 | the comparator is negative or zero exactly when the first operation may stand in front: by type, writes by offset, others by log position |
| Optimizer.PassesOptimize | syncedfs-daemon/optimization.c:50-147 | clipping, any sorted permutation, sweeping and closing the gaps together give an optimized list |
| OptimizeInPlace.Qsort | syncedfs-daemon/optimization.c:92-95 | the vector below `nelem` becomes some sorted permutation, the rest stays |
| OptimizeInPlace.ClipOne | syncedfs-daemon/optimization.c:81-88 | a write that reaches behind the truncate is dropped or cut at it |
| OptimizeInPlace.FileOp.ClipWrites | syncedfs-daemon/optimization.c:53-89 | the vector holds the clipped list: every write in front of the last truncate is cut at it, no other slot changes |
| OptimizeInPlace.FileOp.SweepWrites | syncedfs-daemon/optimization.c:97-132 | the vector holds the swept list, overlaps cut off the later write |
| OptimizeInPlace.FileOp.CloseGaps | syncedfs-daemon/optimization.c:134-144 | the slots that are not NULL, in order, and nothing else below the new `nelem` |
| OptimizeInPlace.FileOp.OptimizeOperations | syncedfs-daemon/optimization.c:50-147 | in place on the vector, the list becomes an optimized form of what it was, without NULLs |
| OptimizerLaws.NonWritesSurvive | syncedfs-daemon/optimization.c:92-144 | operations other than writes survive, each exactly as often as in the log, and in strict log order where the sort is strict |
| OptimizerLaws.TypeInLogOrder | syncedfs-daemon/optimization.c:11-48 | within one type other than write the log order is kept |
| OptimizerLaws.FinishedOrder | syncedfs-daemon/optimization.c:92-132 | the result strictly ascends: writes are sorted, disjoint and not empty |
| OptimizerLaws.SentOrder | syncedfs-daemon/optimization.c:11-48 | deletions are sent before creations, then modes, owners, truncates and writes |
| OptimizerLaws.CreationOrder | syncedfs-daemon/optimization.c:11-48 | creations are sent in the order of their numbers on the wire |
| OptimizerLaws.SweptNext | syncedfs-daemon/optimization.c:100-132 | of each write, in sorted order, exactly the part above the highest right edge of all earlier ones is kept |
| OptimizerLaws.Origin | syncedfs-daemon/optimization.c:79-132 | every operation of the result comes from one of the log, a write as an inner part of its interval |
| OptimizerLaws.CoverageKept | syncedfs-daemon/optimization.c:100-132 | the surviving writes cover exactly the bytes the clipped writes cover |
| OptimizerLaws.BytesSent | analyse-log/main.c:45-64 | the total size of the surviving writes is the number of different bytes covered, never more than the log's, however ties were sorted |
| OptimizerLaws.NeverEmpties | syncedfs-daemon/server.c:83-84 | a list that is not empty stays so, which the server's "at least one chunk for each file" rests on |
| OptimizerLaws.OptimizeTwice | syncedfs-daemon/optimization.c:50-147 | optimizing an optimized list changes nothing |
| FileReplay.ClientFile | syncedfs-daemon/optimization.c:53-89 | the client's final file is the truncated old content, overwritten exactly where the clipped writes cover it |
| FileReplay.SurvivorsInside | syncedfs-daemon/client.c:796-802 | every surviving write lies inside the final file, so the exact-size `pread` of its data succeeds |
| FileReplay.ServerFile | syncedfs-daemon/server.c:475-530 | the optimized list with data of the final file gives the truncated old content with the final bytes where it is covered |
| FileReplay.OptimizedFile | syncedfs-daemon/optimization.c:50-147 | replaying the optimized list on the old content gives the client's final content and length |
| FileReplay.FileAgain | syncedfs-daemon/server.c:475-530 | replaying it a second time leaves the final content as it is |
| NodeReplay.NodeSync | syncedfs-daemon/server.c:342-548 | one path: the server's handlers with the optimized list end in the state of replaying everything that was logged, including delete-create-delete chains and changes of type |
| NodeReplay.NodeAgain | syncedfs-daemon/server.c:398-548 | handling the list again leaves that state, whole or without its refused first operation |
| NodeReplay.NodeRefused | syncedfs-daemon/server.c:439-446 | if `rmdir` is refused, `mkdir` does nothing and only the recorded mode and owner reach the old directory |
| NodeReplay.SameFields | syncedfs-daemon/optimization.c:97-99 | the last mode and the last owner are those of the log |
| Reducer.FindPath | syncedfs-common/lib/uthash.h:94-105 | the entry of the path if there is one, none exactly if no entry has the path |
| Reducer.FindInode | syncedfs-common/lib/uthash.h:245-246 | the entry whose inode has the same low 32 bits, which is what `sizeof(int)` bytes on a little-endian machine compare; none exactly if no entry has them |
| TableSteps.LowHalf | syncedfs-common/lib/uthash.h:245-246 | two inode numbers are the same key exactly if their low 32 bits agree |
| Reducer.Client.HandleLinks | syncedfs-daemon/client.c:206-259 | the operations of an unlinked name are kept under the inode while other links exist, and dropped with the last link |
| Reducer.Client.HandleDeletion | syncedfs-daemon/client.c:262-310 | all operations of the path go; one deletion stays at the end of the table unless the path was created in this epoch |
| Reducer.Client.ExtendVector | syncedfs-daemon/client.c:394-414 | the operation is appended, a full vector doubles, a path without an order gets the next one |
| Reducer.Client.HandleOther | syncedfs-daemon/client.c:370-416 | a new entry with its `created` flag and order, or the old one extended |
| Reducer.Client.AddOperation | syncedfs-daemon/client.c:184-417 | both tables and both counters become exactly what the specification of one operation says |
| TableSteps.AddedToPath | syncedfs-daemon/client.c:193-416 | a LINK goes to its new path, any other operation that is no deletion to its own: behind the list of that path or into a new entry at the end, with capacity, order and `created` as recorded; no other path and no kept operation is touched |
| TableSteps.DeletedPath | syncedfs-daemon/client.c:262-310 | a deletion leaves the path's first operation if that is a deletion, nothing if it is a creation, and otherwise itself, alone at the end of the table; all other entries stay in order |
| TableSteps.UnlinkKeepsOrder | syncedfs-daemon/client.c:206-242 | an unlink that leaves other names puts the path's operations behind those kept for the file, with the lower order; other files' operations are untouched |
| TableSteps.LastUnlinkDrops | syncedfs-daemon/client.c:243-259 | the unlink of the last name drops what is kept for the file and nothing else |
| ReducerLaws.AddOpOk | syncedfs-daemon/client.c:184-417 | one operation of any kind keeps the table invariant |
| ReducerLaws.TablesStayOk | syncedfs-daemon/client.c:201-416 | after any log: 0 < nelem <= capacity, deletions only in front, order -1 exactly for a single deletion, orders and paths distinct, `created` exactly if the list begins with a creation, ids ascending |
| History.StepWellFormed | syncedfs/syncedfs.c:816-825 | a logged operation leaves the client's tree a tree |
| History.RemainderFollows | syncedfs-daemon/client.c:262-310 | what a deletion leaves of a list means "nothing at this path" |
| History.ExtendedFollows | syncedfs-daemon/client.c:370-416 | an extended list means the node changed by the new operation |
| History.DeletionTracks | syncedfs-daemon/client.c:262-310 | a deletion keeps every list replaying to the client's node |
| History.OtherTracks | syncedfs-daemon/client.c:370-416 | any other operation keeps every list replaying to the client's node |
| History.DeletionChildFirst | syncedfs-daemon/client.c:282-308 | re-insertion at the tail keeps purely deleted children in front of their purely deleted parent |
| History.OtherParentsFirst | syncedfs-daemon/client.c:376-414 | a directory made in the epoch keeps a smaller order than what is made in it |
| History.ListsFollowTree | syncedfs-daemon/client.c:139-182 | for every valid log, at every position, the tables and the client's tree belong together |
| TreeSync.SortedTableIsSent | syncedfs-daemon/client.c:589-597 | the stably sorted table of a valid log is fit to be sent |
| TreeSync.TransferOrder | syncedfs-daemon/client.c:589-597 | a directory made in the epoch is sent before what is made in it, purely deleted children before their purely deleted parent |
| TreeSync.ReplayPermitted | syncedfs-daemon/server.c:91-95 | a list changes its own path only, by those of its operations that succeed; failures are ignored |
| TreeSync.ParentReady | syncedfs-daemon/server.c:398-459 | when a creation arrives, its parent directory exists |
| TreeSync.RefusedIffBlocked | syncedfs-daemon/server.c:514-521 | a directory to be removed still has entries exactly if an old entry of it was deleted and made again |
| TreeSync.HandleEntry | syncedfs-daemon/server.c:78-115 | handling one list takes its path to the expected node and touches nothing else |
| TreeSync.EntriesSync | syncedfs-daemon/server.c:78-115 | the server's final tree path by path, and that it is the client's exactly if no directory loses its attributes |
| TreeSync.EpochSync | syncedfs-daemon/client.c:568-608 | for every valid log: the server's tree equals the client's if and only if `NothingLost` |
| TreeSync.EpochAgain | syncedfs-daemon/server.c:249-262 | sending a finished epoch again, however much of it arrives, changes nothing |
| LostMode.ModeIsLost | syncedfs-daemon/server.c:514-521 | a valid four-operation log after which the server's directory has the old mode |
| Inodes.UnlinkMovesOps | syncedfs-daemon/client.c:206-259 | unlinking a name that is not the last moves all its operations to the inode table; the last one drops exactly the file's kept operations |
| Inodes.MatchFiles | syncedfs-daemon/client.c:519-548 | listed files take over the entries of their inodes, in table order, with early exit |
| Inodes.MatchTree | syncedfs-daemon/client.c:471-509 | the walk makes an entry for the first path of each remaining inode, and stops when none is left |
| Inodes.MatchInodefiles | syncedfs-daemon/client.c:511-562 | both tables become the specified ones; success exactly if nothing is left |
| Inodes.MergedEach | syncedfs-daemon/client.c:419-442 | each file keeps its operations in front of the ones it takes over, and its path, order and flags |
| Inodes.MatchedFile | syncedfs-daemon/client.c:519-548 | a listed file that `stat` finds first with the inode of a kept entry ends with its own operations followed by the kept ones, any other listed file as it was |
| Inodes.MatchedNew | syncedfs-daemon/client.c:484-501 | a kept entry no listed file matches becomes a new entry, without an order, for the first visited path with its inode |
| Inodes.MatchedInOrder | syncedfs-daemon/client.c:484-501 | the new entries stand behind the listed files in the order of the walk |
| Inodes.MatchConserves | syncedfs-daemon/client.c:419-562 | the multiset of operations over both tables is the same before and after |
| Inodes.ClaimedByFirst | syncedfs-daemon/client.c:484-501 | an entry goes to the first path with its inode |
| Inodes.ClaimedOnce | syncedfs-daemon/client.c:484-501 | and to no second one |
| Inodes.SucceedsIff | syncedfs-daemon/client.c:556-561 | success exactly if every inode belongs to a listed or visited path |
| Inodes.ClaimMeans | syncedfs-daemon/client.c:484-501 | a visited path gets an entry exactly if it has the inode of a kept one that neither `stat` on a listed path nor an earlier visit has |
| Inodes.OneEntryEach | syncedfs-daemon/client.c:484-497 | paths stay distinct if and only if no listed path is the first visited one with the inode of a kept entry while `stat` finds that inode on no listed path |
| Inodes.NoCollision | syncedfs-daemon/client.c:519-548 | so they do wherever `stat` finds the inodes of kept entries on the listed paths on which the walk finds them |
| SecondEntry.LinksAreLogged | syncedfs/syncedfs.c:186-206 | two symbolic links are made and the first, whose target has inode 7 and other names on another file system, is removed: a client can log this |
| SecondEntry.SymlinkCollides | syncedfs-daemon/client.c:484-497 | the table of that log, matched along a walk on which the second link itself has inode 7, has two entries for the second link |
| SecondEntry.WrongTarget | syncedfs-daemon/server.c:448-459 | from these two the server makes the second link with the target of the first, and not its own |
| Transfer.DynData.Grow | syncedfs-daemon/client.c:783-794 | a new buffer of the old and the write's size together, which begins with the bytes of the old one |
| Transfer.DynData.Read | syncedfs-daemon/client.c:796-808 | the file's bytes lie behind what the buffer held, which stays |
| Transfer.Sender.LoadWriteData | syncedfs-daemon/client.c:753-811 | a loaded write owns an intact slice behind those of the waiting writes; the buffer is replaced only when none waits |
| Transfer.Sender.TransferChunk | syncedfs-daemon/client.c:729-747 | one message with exactly the waiting operations and their data |
| Transfer.Sender.Flush | syncedfs-daemon/client.c:678-688 | what has been sent so far extends to these operations and the buffer is empty |
| Transfer.Sender.MakeRoom | syncedfs-daemon/client.c:672-688 | what waits is sent exactly if the next write's data does not fit behind it |
| Transfer.Sender.Stage | syncedfs-daemon/client.c:671-699 | the next operation waits; if its data would not fit, the others were sent before |
| Transfer.Sender.FlushIfFull | syncedfs-daemon/client.c:701-714 | what waits is sent exactly if its data has reached 524288 bytes, marked last exactly if no operation follows |
| Transfer.Sender.TransferFile | syncedfs-daemon/client.c:653-727 | the chunks carry the loaded list, only the last is marked, each has less than MESSAGE_MAX and one write of data, and one is followed by another only if its data has reached 524288 bytes or would pass them with the write the next one begins with |
| Transfer.OneChunk | syncedfs-daemon/client.c:653-727 | a file whose writes stay below 524288 bytes together goes out in a single chunk |
| Chunks.FileRoundTrip | syncedfs-daemon/server.c:90-108 | from one file's chunks, whatever follows, the loop reads exactly its path and list, and leaves what follows |
| Chunks.StreamRoundTrip | syncedfs-daemon/server.c:79-115 | the stream parses back into exactly the paths and lists that were sent, in order and to its end, for every number of files |
| Chunks.RunFilesParsed | syncedfs-daemon/server.c:79-115 | the loops apply each list they read once, to its own path, in order |
| Chunks.StreamIsWhole | syncedfs-daemon/server.c:80-108 | chunks of one file have one path, and the stream ends with the end of a file |
| ReplayServer.Server.HandleCreate | syncedfs-daemon/server.c:398-407 | effect of `creat`, and the descriptor that stays open belongs to the file |
| ReplayServer.Server.HandleNew | syncedfs-daemon/server.c:409-459 | effect of `mknod`, `mkdir`, `symlink`; nothing that exists changes |
| ReplayServer.Server.HandleWrite | syncedfs-daemon/server.c:475-496 | effect of `pwrite` through the shared or a newly opened descriptor |
| ReplayServer.Server.HandleUnlink | syncedfs-daemon/server.c:498-512 | effect of `unlink`, after which no descriptor is open; every directory is still there |
| ReplayServer.Server.HandleRmdir | syncedfs-daemon/server.c:514-521 | effect of `rmdir`, refused on a directory with entries |
| ReplayServer.Server.HandleModify | syncedfs-daemon/server.c:523-548 | effect of `truncate`, `chmod`, `chown` on what is at the path |
| ReplayServer.Server.HandleGenericOperation | syncedfs-daemon/server.c:342-396 | the tree changes as the operation says, or not at all if it fails |
| ReplayServer.Server.HandleChunk | syncedfs-daemon/server.c:91-95 | all operations of a chunk with one descriptor have the effect of the list on the tree |
| ReplayServer.Server.HandleFile | syncedfs-daemon/server.c:80-113 | the chunks of one file up to the marked one |
| ReplayServer.Server.HandleFiles | syncedfs-daemon/server.c:79-115 | tree and rest of the stream are those of the specification, also when the connection ends early |
| Effects.CreateEffect | syncedfs-daemon/server.c:398-407 | `creat` makes an empty file with the twelve mode bits where the directory exists, empties a file that is there, and changes nothing else |
| Effects.MkdirEffect | syncedfs-daemon/server.c:439-446 | `mkdir` makes a directory with the twelve mode bits at an absent path in an existing directory, and does nothing otherwise |
| Effects.MknodEffect | syncedfs-daemon/server.c:409-437 | type bits 8 make a regular file, others a node of that kind with its device number |
| Effects.SymlinkEffect | syncedfs-daemon/server.c:448-459 | a link with the logged target at an absent path |
| Effects.UnlinkEffect | syncedfs-daemon/server.c:498-512 | the path is gone if it was no directory, and nothing else ever is |
| Effects.RmdirEffect | syncedfs-daemon/server.c:514-521 | the path is gone exactly if it was a directory without entries and not the root |
| Effects.TruncateEffect | syncedfs-daemon/server.c:523-530 | a file keeps its first bytes, followed by zeros up to the new size |
| Effects.ChmodEffect | syncedfs-daemon/server.c:532-539 | the mode becomes the twelve mode bits, for any type bits in front of them, and nothing else changes |
| Effects.ChownEffect | syncedfs-daemon/server.c:541-548 | the owner changes and nothing else |
| Effects.WriteEffect | syncedfs-daemon/server.c:475-496 | the bytes stand at the offset, a gap is zeros, and no other byte changes |
| Effects.WriteRefused | syncedfs-daemon/server.c:485-487 | without data, or where there is no file, nothing happens |
| Framing.ByteOrder | syncedfs-daemon/client.c:146 | the length read back with `ntohl` is the one written with `htonl` |
| Framing.FrameBytes | syncedfs-common/message_functions.c:51-92 | four bytes of length, the most significant first, and then the message |
| Framing.Packer.PackMessage | syncedfs-common/message_functions.c:51-92 | the buffer begins with the framed message, is replaced exactly if its recorded length is too small, and is never shorter than recorded |
| Framing.TornLog | syncedfs-daemon/client.c:145-174 | a log cut off anywhere yields exactly the records that are complete; it counts as read to the end exactly if not even the next header is there |
| Framing.LoadsAll | syncedfs-daemon/client.c:145-174 | a whole log yields its records in order |
| LogLoading.LoadLog | syncedfs-daemon/client.c:139-182 | the tables get exactly the records that can be read, in order; failure exactly for a torn body |
| LogLoading.SwitchedOutLogLoads | syncedfs-daemon/client.c:139-182 | every switched-out log loads to exactly the records logged between two switches |
| LogSwitch.StepOk | syncedfs/log.c:77-101 | every step of handler, writer and client keeps files and flags consistent |
| LogSwitch.NoRecordLost | syncedfs/log.c:47-101 | in every interleaving: taken-over logs, switched-out log and current log are together the records logged and the part being written |
| LogSwitch.HistoryIsLogged | syncedfs/log.c:47-101 | the records in the logs are those handed to `logGeneric`, in order |
| LogSwitch.AnyInterleaving | syncedfs/sighandlers.c:22-31 | the handler can interrupt the logging at every step, and nothing else is held up |
| LogSwitch.CountersCount | syncedfs/sighandlers.c:22-41 | a switch is counted exactly when the current log becomes the switched-out one, a request and an acknowledgement when they happen |
| LogSwitch.SwitchedOutLogIsWhole | syncedfs/sighandlers.c:22-31 | the switched-out log is cut on record boundaries |
| LogSwitch.AnsweredOnce | syncedfs/sighandlers.c:22-41 | each request leads to one switch and one acknowledgement, and with it there is a switched-out log |
| LogSwitch.SomeoneCanStep | syncedfs/log.c:99-100 | an unanswered request never gets stuck |
| LogSwitch.StepsEnd | syncedfs/sighandlers.c:22-41 | every step brings the answer nearer |
| Recovery.AdvanceInv | syncedfs-daemon/server.c:221-335 | every step of `syncInit` and of the end of `handleClient` keeps the snapshot invariant |
| Recovery.RunsKeepInv | syncedfs-daemon/server.c:265-317 | over all runs with crashes: a snapshot is a clean tree, without one the tree is clean, a missing or partial tree comes with snapshot and sync-id |
| Recovery.NeverPartial | syncedfs-daemon/server.c:319-335 | whenever the server says continue, its tree is the one before or the one after the epoch |
| Recovery.OrderOfFiles | syncedfs-daemon/server.c:120-138 | snapshot and sync-id come and go in the order that makes each crash recoverable: snapshot first, id second, and the same when they go |
| Recovery.EpochsInSequence | syncedfs-daemon/server.c:140-147 | epochs are confirmed one after the other, each with its tree complete |
| Recovery.ConfirmedId | syncedfs-daemon/server.c:127-147 | with the confirmation, the sync-id its client sent in this session is in `.syncid.last`, and `.syncid` is gone |
| Recovery.SessionBase | syncedfs-daemon/server.c:265-317 | a session replays onto the snapshot exactly if snapshot and readable sync-id are left from an unfinished one, and otherwise onto the tree as it is; with a snapshot of just that tree |
| Recovery.SessionCompletes | syncedfs-daemon/server.c:64-150 | an undisturbed session completes the epoch from whatever a crash left, with the client's sync-id as the last one |
| Recovery.MissingTreeIsRestored | syncedfs-daemon/server.c:276-292 | a tree lost between its deletion and its restoration comes back with the next session, which is refused |
| Drift.LikeValidLog | syncedfs/syncedfs.c:816-825 | what succeeded on the client's tree would have succeeded on any tree that differs from it in modes and owners of directories only |
| Drift.EpochArrives | syncedfs-daemon/server.c:78-115 | after any valid log the server's tree differs from the client's at most in modes and owners of directories |
| Drift.EpochFrom | syncedfs-daemon/server.c:78-115 | the same if it differed so before, and sending the epoch again changes nothing |
| Epochs.EpochIsOk | syncedfs-daemon/server.c:78-115 | step by step, what the client sends takes a tree like its old one to one like its new one, and leaves that as it is |
| Epochs.EpochIsExact | syncedfs-daemon/server.c:78-115 | from the client's old tree it makes exactly the new one if and only if no directory loses its attributes |
| Epochs.ServerTreeIsLike | syncedfs-daemon/server.c:78-115 | after any number of epochs only modes and owners of directories differ... |
| Epochs.ServerTreeIsExact | syncedfs-daemon/server.c:78-115 | ...and none as long as no directory has lost its attributes |
| Epochs.ServerFollowsClient | syncedfs-daemon/server.c:117-147 | any number of epochs with server crashes: a confirmed epoch means the client's tree, exactly if no directory has lost its attributes so far and otherwise up to modes and owners of directories; a client is let in only on such a tree of before or after its epoch |
| Epochs.ServerCatchesUp | syncedfs-daemon/server.c:221-317 | from any reachable state undisturbed steps end with such a tree |
| Links.Appended | syncedfs-common/lib/uthash.h:173-175 | appending behind the tail keeps the list doubly linked |
| Links.Removed | syncedfs-common/lib/uthash.h:216-231 | letting the neighbours point to each other takes exactly the item out |
| Links.PushedFront | syncedfs-common/lib/uthash.h:595-598 | the same for the front of a chain |
| HashTable.IdealIsCeiling | syncedfs-common/lib/uthash.h:658-660 | `ideal_chain_maxlen` is the exact ceiling of items over new buckets, and not zero |
| HashTable.ExcessCounts | syncedfs-common/lib/uthash.h:669-673 | `nonideal_items` is the number of items beyond the ideal length of their chains |
| HashTable.MultMeans | syncedfs-common/lib/uthash.h:669-673 | `expand_mult` is the whole number of ideal lengths in a chain longer than one, and zero otherwise |
| HashTable.SpreadIsRoomy | syncedfs-common/lib/uthash.h:599-602 | right after an expansion every chain is below its threshold, as long as the ideal length is below ten |
| HashTable.MoveItem | syncedfs-common/lib/uthash.h:665-680 | moving one item keeps old and new chains apart and consistent |
| HashTable.Table.ExpandBuckets | syncedfs-common/lib/uthash.h:647-693 | twice the buckets, the same items each in the bucket of its hash; counts of surplus items, thresholds and the end of expansion as recorded |
| HashTable.Table.AddToBucket | syncedfs-common/lib/uthash.h:592-603 | the buckets double exactly if expansion is not inhibited and the chain reaches ten times its `expand_mult` and one; otherwise the item stands in front of its chain and nothing else in the buckets changes |
| HashTable.Table.Add | syncedfs-common/lib/uthash.h:162-185 | the item stands behind all others; a new table has 32 buckets, and an old one doubles them exactly if the item's chain reaches ten times its `expand_mult` and one and expansion is not inhibited; unless it is, or the ideal length has reached ten, every chain stays below that |
| HashTable.Table.Delete | syncedfs-common/lib/uthash.h:204-237 | exactly this item is gone, the others keep their order; the table does not shrink, and with the last item it is freed |
| HashTable.Table.Find | syncedfs-common/lib/uthash.h:94-105 | the item with the key; NULL exactly if no item has it |
| HashTable.Table.Fsck | syncedfs-common/lib/uthash.h:261-311 | everything the integrity check looks at is in order in a valid table |
| HashTable.LengthsTotal | syncedfs-common/lib/uthash.h:288-291 | the chains together hold as many items as the list |
| MergeSort.MergeStable | syncedfs-common/lib/uthash.h:726-754 | merging two runs takes equal items from the first run first |
| MergeSort.PassSorts | syncedfs-common/lib/uthash.h:714-766 | a pass makes ascending runs of twice the length |
| MergeSort.ItemList.MergeRuns | syncedfs-common/lib/uthash.h:726-765 | relinking two runs appends their merge to what is finished |
| MergeSort.ItemList.MergePass | syncedfs-common/lib/uthash.h:710-767 | one pass relinks the list to the specified one and counts its merges |
| MergeSort.ItemList.Sort | syncedfs-common/lib/uthash.h:700-777 | for every length: a stable sort of the list, doubly linked, with the right head and tail |
| Pipeline.SortFiles | syncedfs-daemon/client.c:589-591 | sorting by order and walking along the list gives the table stably sorted |
| Pipeline.SendFile | syncedfs-daemon/client.c:653-727 | the chunks carry an optimized form of the entry's list with the data of the file |
| Pipeline.TransferAll | syncedfs-daemon/client.c:589-597 | the stream is the chunks of all entries, one after the other in order |
| Pipeline.LastNames | syncedfs-daemon/client.c:206-259 | no operations are kept for other names if every unlinked name was its file's last |
| Pipeline.ClientEpoch | syncedfs-daemon/client.c:98-113 | from the bytes of the log alone: the stream carries the reduced, stably sorted and optimized log |
| Pipeline.EpochOutcome | syncedfs-daemon/server.c:79-115 | what the server makes of such a stream is the client's tree exactly if `NothingLost` |
| Pipeline.SynchronizeTrees | syncedfs-daemon/client.c:36-132 | client and server run one after the other: the server's tree is the client's if and only if `NothingLost` |

## Left out

- History.Possible: the end-to-end results exclude hard links, renames and operations through symbolic links, and take creations to be of absent paths, which is when they are logged (`syncedfs/syncedfs.c:806`); the tables themselves are modelled for every operation.
- Pipeline.ClientEpoch: requires that no operations are kept under an inode in the end (`NothingKept`), which a valid log fails only if a symbolic link is made in the epoch and removed again while its target has several names; where those operations go is said by the results about `Inodes.Matched`. It also takes the file system to be quiet between the log switch and the snapshot, so that the snapshot is the tree the log leads to, and a log that is not torn.
- Contents across hard links: the lists merged by `matchInodefiles` are neither filtered nor ordered (TODOs at `syncedfs-daemon/client.c:218`, `:231`, `:532`); only what happens to the operations is stated.
- RENAME: the reducer's handling is commented out (`syncedfs-daemon/client.c:315-366`); the handlers for `link` and `rename` change nothing here.
- OptimizeInPlace.FileOp.ClipWrites: slots hold operations, not pointers to them, so an operation shared by two lists is not modelled.
- Reducer.Client.AddOperation: table and paths are unbounded; the 32-bit counters and `int` vector sizes are not modelled.
- ReplayServer.Server.HandleWrite: the descriptor is a flag, not a number; writes to device nodes, the umask, set-user-id bits, extended attributes and mapping of users are not modelled.
- Recovery.Advance: snapshot operations succeed, fail because the target is missing, or are cut by a crash; `btrfs` itself, sockets and the resource check are not modelled.
- A crash of the client between deleting its snapshot and its log (`syncedfs-daemon/client.c:112-126`) is not part of this model.
- LogSwitch.Do: one request is outstanding at a time; the client's ten-second limit, failures of `rename` or `open`, and several clients are not modelled.
- Framing.Packer.PackMessage: the payload stands for the packed message; the generated serialization and its inverse are taken as given.
- HashTable.Table.Add: `key & (num_buckets - 1)` is the remainder by a power of two; the hash function is arbitrary, and HASH_SELECT and the bloom filter are left out.
- The FUSE callbacks, daemonizing, pid files, configuration, logging of messages, `fswrite` and the printing in `analyse-log`: wrappers and plumbing with no state of their own.
