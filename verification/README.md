# The xv6 kernel and user programs in Dafny

Models of the parts of this xv6 system whose correctness rests on invariants over state, with proofs that every
operation keeps them. The code keeps its form: objects with fields that methods reassign, loops with invariants, and
state machines where processes, devices or interrupts interleave. `dafny verify dfyconfig.toml` checks everything.

- **Storage.** `Bio` is the buffer cache with its linked LRU list, over a disk that remembers every image between two
  block writes. `LogDisk` says what those images are, for one commit and for a whole history of them, and what recovery
  makes of them. `Readers` are processes that take and give back buffers while a commit runs, and `LogCache` accounts for
  the buffers they hold and the log has pinned; `Log` is the redo log with group commit on top of the cache, and `LogRuns`
  holds runs of it that end in a panic. `FsBlocks`, `FsState`, `FsFiles`,
  `FsLedger`, `FsTrunc` and `Fs` are block allocation, the block maps of inodes, truncation, reading, writing and the
  chunking of `filewrite`, down to the bits, words and bytes inside a block; `FsTight` shows that the bound on logged
  blocks is met. `CrashSafe` puts the file system over log and cache.
- **Memory.** `Sv39` is the three-level table tree and the flat map it stands for, `Frames` the reference counts and the
  free list, `Spaces` what address spaces see of each other, `Vm` the code: page allocation, mapping, copy-on-write fork
  and the store fault. `StoreRights` is about who may store where after a fork. `Umalloc` is the user-level allocator.
- **Processes.** `ExitWait` and `ExitWaitRuns` take `fork`, `exit`, `reparent`, `wait`, `sleep`, `wakeup` and `kill` apart
  into the stretches between lock operations and prove what holds in every interleaving; the steps of `waitx` are those
  of `wait`. `WaitGivesUp` says when `wait` returns without a child, `ProcessStates` how a table entry lives, and
  `ExitWaitProgress` that nothing deadlocks and `wait_lock` is not held for long. `Mlfq` is the five-level feedback queue on one CPU, and `MlfqRuns` holds runs that fill a level.
- **Devices and programs.** `VirtioState` and `Virtio` are the disk driver's descriptor rings shared with the device,
  `Pipe` the pipe, `ShellGrammar`, `ShellRoundTrip`, `ShellText` and `Shell` the shell's scanner and parser, `ShellLanguage`
  and `ShellInput` the language they read, stated without them, `Grep` the regular-expression matcher.

Where an invariant cannot be read off the fields, a ghost field carries it: the role of every page, block or descriptor,
the bytes a pipe has accepted, the process ids that have been reaped. Identifiers of the code appear with their C names
in the comments.

## What does not hold as written

- **log_write and the reservation.** `log_write` also demands `n < log.size - 1`, and `mkfs` makes the log LOGSIZE blocks
  long, header included. On a log with more than LOGSIZE blocks an operation with part of its reservation left is never
  refused (`Log.Log.ReservationHonoured`); on every smaller one, three admitted operations reach such a refusal
  (`LogRuns.ReservationBroken`). The check also comes before absorption: on a log with more than LOGSIZE blocks an
  operation is refused exactly when LOGSIZE blocks are logged, even for one of them (`Log.Log.RefusedIff`,
  `LogRuns.RewriteRefused`).
- **commit and the buffers.** `commit` needs a buffer beside the pinned ones, and `fileread` takes buffers without being
  an operation of the log. Under every schedule of such readers the panic comes exactly if commit or a reader
  needs another buffer while blocks still pinned plus buffers held reach NBUF (`Log.Log.Commit`); with nobody coming or going that is blocks logged plus
  buffers held (`Readers.CommittedStill`). With the shipped constants LOGSIZE - 1 logged blocks and one reader do it
  (`LogRuns.ReaderStarvesCommit`), and so do readers that come while it runs (`LogRuns.LateReadersStarveCommit`).
- **MAXOPBLOCKS and holes.** A chunk of `filewrite` logs at most MAXOPBLOCKS blocks because files have no holes, and the
  bound is met; with a hole at its start it would log one more (`FsLedger.ChunkBound`, `FsTight.LogsExactly`,
  `FsTight.TightImage`).
- **sbrk's int.** Requests above 0x7FFFFFE0 bytes make `morecore` link a block larger than the memory it got
  (`Umalloc.MorecoreSoundIff`, `Umalloc.LargestRequest`).
- **dequeue_proc on a full level.** It does not clear the last slot, so it is sound exactly on levels that are not full
  (`Mlfq.DequeueSoundIff`, `Mlfq.PickSoundIff`). One process that is not RUNNABLE keeps every level from filling up
  (`Mlfq.IdleMeansRoom`); with all RUNNABLE, collecting can fill one, and so can ageing (`MlfqRuns.DequeueBreaks`,
  `MlfqRuns.AgeingFillsALevel`).
- **fork and the right to store.** `handleCOW` never helps page 0 and gives write permission to pages that were read-only
  before the fork. With memory to spare, rights are kept exactly on pages that are not the user's, on page 0 if it was
  read-only, and on other pages that were writable or copy-on-write (`StoreRights.StoreRightsKeptBefore`,
  `StoreRights.ForkTakesPageZero`, `StoreRights.ForkOpensReadOnlyPage`). It reads the entry before it tests the pointer, so a store without a level-0
  table makes it read a null entry (`Vm.Vm.HandleCow`, `StoreRights.NewSpaceHasNoTables`).
- **Kernel writes.** `copyout` bypasses the handler, so its writes are isolated exactly on pages with count 1
  (`StoreRights.KernelWriteIsolatedIff`).
- **piperead.** It loses the byte it cannot copy out, exactly if the user memory ends before the count and before the pipe
  is empty (`Pipe.PipeBuffer.Read`, `Pipe.ByteLost`).
- **Device errors.** The interrupt handler panics exactly if the device reports a status other than 0
  (`Virtio.VirtioDisk.IntrOne`).

## Model

| member | source | states |
|---|---|---|
| `Bio.UnlinkKeepsRing` | kernel/bio.c:126-134 | unlinking any buffer leaves next and prev one ring through head and the other buffers, in the same order |
| `Bio.PushFrontKeepsRing` | kernel/bio.c:130-133 | relinking it after head puts it first and moves nothing else |
| `Bio.MoveToFrontKeepsList` | kernel/bio.c:126-134 | the two together keep all NBUF buffers on the list exactly once |
| `Bio.StoreAfterDiskWrite` | kernel/bio.c:106-112 | writing a buffer out does not change the contents a reader of the cache sees, for any block |
| `Bio.StoreAfterBufferChange` | kernel/bio.c:58-103 | what a changed buffer does to the logical store: its own block, no other |
| `Bio.UniqueAfterRekey` | kernel/bio.c:58-89 | recycling a buffer for a block nobody caches keeps one buffer per block |
| `Bio.Bcache.Binit` | kernel/bio.c:36-53 | an empty cache over a disk: the logical store is the disk, the list holds every buffer |
| `Bio.Bcache.Find` | kernel/bio.c:58-89 | the buffer of the block if cached, else the least recently released unreferenced one, and neither exactly when every buffer is referenced |
| `Bio.Bcache.Bread` | kernel/bio.c:92-103 | a locked buffer with the latest logical contents of the block; the panic happens exactly when nothing can be recycled |
| `Bio.Bcache.SetData` | kernel/bio.c:8-14 | changing a held buffer changes the logical store at its block only and the disk not at all |
| `Bio.Bcache.Bwrite` | kernel/bio.c:106-112 | one block of the disk changes and the resulting image joins the crash history; the logical store does not change |
| `Bio.Bcache.Brelse` | kernel/bio.c:116-137 | the buffer is released and, with its last reference, becomes the most recently used; contents unchanged |
| `Bio.Bcache.Bpin` | kernel/bio.c:139-144 | one more reference, so the buffer cannot be recycled |
| `Bio.Bcache.Bunpin` | kernel/bio.c:146-151 | one reference less, contents unchanged |
| `LogDisk.InstallAgain` | kernel/log.c:68-83 | an install cut short and started over ends like one that was not |
| `LogDisk.RecoveryImagesAgree` | kernel/log.c:116-123 | every image of a recovery recovers to the same home contents |
| `LogDisk.CrashesInRecoveryAreHarmless` | kernel/log.c:116-123 | any number of crashed recoveries before a complete one changes nothing |
| `LogDisk.HeadedRecoversToUpdated` | kernel/log.c:86-123 | a disk with a written header recovers to all new contents |
| `LogDisk.CrashAtomicity` | kernel/log.c:68-203 | for every crash point of commit and any crashes in recovery, the home blocks, which are all blocks outside the log's own, end up all old before the header write and all new after it, and the log is idle |
| `LogDisk.LogWritesOnlyWhileIdle` | kernel/log.c:178-203 | a block of the log changes only while the on-disk header count is 0 |
| `LogDisk.HeadRoundTrip` | kernel/log.c:86-114 | the block numbers written into a header are read back |
| `LogDisk.CommitMakesTrail` | kernel/log.c:193-203 | log writes, header write, installs and clear, joined, are the trail of one commit |
| `LogDisk.PartOfLog` | kernel/log.c:178-191 | a commit that stops before its header is written shows a beginning of its trail |
| `LogDisk.PartOfInstall` | kernel/log.c:68-83 | and so does one that stops after |
| `LogDisk.CrashInCommit` | kernel/log.c:193-203 | a crash at any image of a commit is that point or the next, decided by the header write |
| `LogDisk.ExtendedOk` | kernel/log.c:193-203 | a history followed by one more commit is a history, and its images are the old ones and the new trail |
| `LogDisk.AfterAnyCrash` | kernel/log.c:68-203 | every image of a history belongs to one write of one commit and recovers to the point before or after it |
| `LogDisk.PointsAreApplied` | kernel/log.c:178-203 | the disk after k commits is the first disk with the k transactions applied one at a time |
| `LogDisk.CrashBeforeAny` | kernel/log.c:116-123 | a crash before the first write of the first commit leaves what recovery left |
| `LogDisk.CrashKeepsAPrefix` | kernel/log.c:68-203 | over the whole history of a log, from the image recovery ended with on, a crash at any image and any crashes in recovery leave exactly the effect of a prefix of the transactions, and none is lost whose commit had finished |
| `Log.Admission` | kernel/log.c:126-142 | when begin_op admits, blocks logged plus everything operations may still add fits in LOGSIZE |
| `Log.Log.ReservationHonoured` | kernel/log.c:220-221 | in every state of a log with more than LOGSIZE blocks, an operation with part of its reservation left is not refused |
| `Log.Log.RefusedIff` | kernel/log.c:220-229 | on such a log an operation is refused exactly when LOGSIZE blocks are logged, whatever block it logs, and then its reservation is used up |
| `LogRuns.ReservationBroken` | kernel/log.c:220-221 | the converse: from any fresh log of at most LOGSIZE blocks, three admitted operations within their reservations reach a log_write that panics although its operation has reservation left |
| `LogRuns.RewriteRefused` | kernel/log.c:220-229 | on every log of more than LOGSIZE blocks, a run that is refused when it changes again a block it has logged: the size check comes before absorption |
| `LogRuns.Fill` | kernel/log.c:126-142 | the run: three operations are admitted and log any number of blocks that the log's size admits, each within its reservation |
| `LogRuns.ReaderStarvesCommit` | kernel/log.c:178-191 | on a log of LOGSIZE blocks, as mkfs makes it, LOGSIZE - 1 logged blocks and one reader leave commit without a buffer |
| `LogRuns.LateReadersStarveCommit` | kernel/log.c:178-191 | with any number n of blocks logged and nobody reading, NBUF - n readers that come before any one round of write_log leave it without a buffer |
| `Readers.CommittedStill` | kernel/log.c:193-203 | with nobody coming or going, commit finds its buffers exactly if blocks logged plus buffers held stay below NBUF |
| `Readers.RoomForAll` | kernel/log.c:193-203 | it finds them under every schedule in which blocks logged, buffers held and all that come stay below NBUF |
| `LogCache.ReferencedBlocks` | kernel/log.c:178-203 | when commit runs, the referenced buffers are exactly those of logged blocks and of readers, and no block is both |
| `LogCache.SpareIffRoom` | kernel/log.c:178-191 | so a buffer is left exactly when blocks logged plus buffers held stay below NBUF |
| `LogCache.PinnedByLogWrite` | kernel/log.c:214-235 | logging a new block pins its buffer once and keeps the accounting of references |
| `LogCache.QuietAfterInstall` | kernel/log.c:73-82 | installing a block releases exactly its pin and keeps every other buffer clean |
| `LogCache.CommittedContents` | kernel/log.c:178-203 | recovering from the header a commit writes gives the home contents the cache showed |
| `Log.Log.ReaderStep` | kernel/bio.c:92-103 | a reader takes or gives back a buffer while blocks are pinned: contents and disk unchanged; it finds none exactly when pinned and held blocks fill the cache |
| `Log.Log.constructor` | kernel/log.c:54-65 | start-up leaves the recovered disk, an empty log, a cache that agrees with the disk and an empty history |
| `Log.Log.WriteHead` | kernel/log.c:102-114 | one block write that puts count and block numbers in the header block, or no buffer is spare |
| `Log.Log.HeaderBytes` | kernel/log.c:106-111 | the header block gets the count and the names and keeps the rest |
| `Log.Log.ReadHead` | kernel/log.c:86-97 | the in-memory header becomes the one on disk |
| `Log.Log.LogOne` | kernel/log.c:183-190 | one log block receives the cached contents of its home block, readers' buffers undisturbed; it fails exactly when no buffer is spare |
| `Log.Log.WriteLog` | kernel/log.c:178-191 | with readers coming and going before each round: the log blocks hold the cached contents, one image per write, home contents unchanged; it fails exactly at the first round that finds every buffer pinned or held |
| `Log.Log.InstallOne` | kernel/log.c:73-82 | one home block receives its log block and loses its pin, readers' buffers undisturbed; it fails exactly when no buffer is spare |
| `Log.Log.InstallTrans` | kernel/log.c:68-83 | with readers coming and going before each round: every named home block receives its log block, image by image, and all pins are gone; it fails exactly at the first round that finds every buffer pinned or held |
| `Log.Log.RecoverFromLog` | kernel/log.c:116-123 | the disk becomes Recover of the disk, through exactly the images of a recovery |
| `Log.Log.CommitBlocks` | kernel/log.c:193-203 | log, header, install, clear, with readers before every write: the crash history grows by exactly the trail of a commit, or on failure by a beginning of it, and the disk is what recovery would make of it |
| `Log.Log.Commit` | kernel/log.c:193-203 | for every schedule of readers before its writes, of blocks it does not log: it fails exactly if somebody finds the blocks still pinned and those held filling all NBUF buffers; otherwise disk and logical store agree outside the log, the log is empty, the readers of the schedule are there, and the history is longer by this transaction; after a failure the images are those of the history and a beginning of this commit's |
| `Log.Log.BeginOp` | kernel/log.c:126-142 | admits exactly when no commit runs and the new reservation fits, and then reserves MAXOPBLOCKS |
| `Log.Log.EndOp` | kernel/log.c:146-165 | gives up the reservation; commits exactly as the last operation; the log.committing panic is unreachable |
| `Log.Log.EndCommit` | kernel/log.c:167-174 | the log accepts operations again |
| `Log.Log.FindLogged` | kernel/log.c:225-229 | the place of the block in the header, or the end exactly if it is not there |
| `Log.Log.LogWrite` | kernel/log.c:214-235 | a new block is appended and pinned once, a known one costs nothing; refused exactly by the two size checks; no operation with budget is refused when log.size exceeds LOGSIZE |
| `Log.Log.Read` | kernel/bio.c:92-103 | under the log, reads see the latest contents, and a logged block is always found in its own buffer |
| `Log.Log.Modify` | kernel/log.c:205-213 | an uncommitted change reaches the cache and not the disk |
| `Log.Log.Release` | kernel/bio.c:116-137 | releasing a logged or unchanged buffer changes neither contents nor disk |
| `Log.Log.Update` | kernel/log.c:205-235 | bread, change, log_write, brelse: the block has the new contents in the logical store and no other block changes, or no buffer or no room is left, each exactly when it is |
| `CrashSafe.FileStack.constructor` | kernel/log.c:54-65 | the file system found by recovery is the first point of the history |
| `CrashSafe.FileStack.Replay` | kernel/log.c:205-235 | passing the blocks an operation changed to the log, each once, makes the logical store show the new file system; it is never too big when log.size exceeds LOGSIZE |
| `CrashSafe.FileStack.Write` | kernel/file.c:157-167 | one write of filewrite over log and cache: -1 exactly on a bad range, short only on a full disk, the spliced contents in the logical store, of the inodes only size and addresses of this one change, other files unchanged, nothing on disk yet |
| `CrashSafe.FileStack.Truncate` | kernel/fs.c:425-453 | truncation over log and cache, on a disk with at most MAXOPBLOCKS - 1 bitmap blocks: the file is empty in the logical store, exactly its blocks are free, its inode keeps type and links and is otherwise zero, other files unchanged, nothing on disk yet |
| `CrashSafe.FileStack.End` | kernel/log.c:146-174 | end_op commits exactly as the last operation with something logged, and then the present file system joins the points, the log is empty and no commit is under way; after commit's panic the images are a beginning of that commit's |
| `CrashSafe.ShowsInodes` | kernel/fs.c:303-311 | on a disk that shows a sound file system, as recovery leaves it, ilock reads every inode of that file system |
| `CrashSafe.FileStack.CommitFiles` | kernel/log.c:193-203 | a commit of something adds the present file system to the points; after its panic the images are a beginning of that commit's |
| `CrashSafe.FileStack.AfterAnyCrash` | kernel/log.c:54-203 | at every image of a run from the one recovery ended with on, and after any crashes in recovery, recovery leaves a file system with all its invariants, and none older than the last finished commit |
| `CrashSafe.FileStack.CommittedSurvives` | kernel/log.c:193-203 | once a commit has ended, a crash before the next write leaves the file system it committed |
| `CrashSafe.FileStack.AfterPanic` | kernel/log.c:178-203 | the same after commit's own panic: at every image recovery leaves a sound file system, that commit's or an earlier one, and none older than the last finished commit |
| `Sv39.WalkRole` | kernel/vm.c:85-103 | the table a walk ends in belongs to this address space and carries the page's own upper indices |
| `Sv39.SlotsAreDistinct` | kernel/vm.c:85-103 | two pages, of one address space or two, with the same leaf slot are the same page |
| `Sv39.LeafWrite` | kernel/vm.c:142-165 | writing a leaf slot changes the flat map at that page of that address space and nowhere else, and keeps the tree |
| `Sv39.LinkKeepsTree` | kernel/vm.c:95-100 | hanging in an empty table changes no mapping of any address space |
| `Sv39.NewRootKeepsTree` | kernel/vm.c:196-205 | a new root maps nothing and disturbs nothing |
| `Frames.MapStep` | kernel/vm.c:225-249 | mapping a fresh page keeps every count equal to its number of references, and writable pages private |
| `Frames.ShareStep` | kernel/vm.c:305-339 | sharing a page read-only adds exactly one reference |
| `Frames.UnshareStep` | kernel/kalloc.c:81-108 | unmapping a shared page takes exactly one reference away |
| `Frames.DropStep` | kernel/kalloc.c:81-108 | unmapping the last reference puts the page on the free list, once |
| `Frames.SplitStep` | kernel/trap.c:50-76 | replacing a shared page by a private copy moves one reference and makes it writable |
| `Frames.FlagsStep` | kernel/trap.c:50-76 | changing the flags of a leaf keeps counts and map; it may become writable only if private |
| `Frames.MapKernelStep` | kernel/proc.c:252-261 | mapping one of the kernel's pages in a user table, out of the user's reach, touches no count |
| `Frames.UnmapKernelStep` | kernel/proc.c:275-276 | nor does unmapping it |
| `Spaces.NoWriters` | kernel/vm.c:305-339 | a page with one read-only mapping has no writable one |
| `Spaces.ContentsKept` | kernel/trap.c:32-77 | outside the changed pages every process reads the bytes it read before |
| `Spaces.ForkCopies` | kernel/vm.c:305-339 | after a fork the child reads exactly the parent's bytes, and everybody else, parent included, what they read before |
| `Spaces.WriteStep` | kernel/trap.c:122-131 | a store through a writable mapping changes that byte of that page in that address space only |
| `Spaces.PokeStep` | kernel/vm.c:372-372 | a write to a data page by physical address keeps trees, counts and every other page |
| `Spaces.DissolveStep` | kernel/vm.c:271-297 | taking the tables of an empty address space out of service leaves all others as they were |
| `Spaces.PagesReturn` | kernel/vm.c:170-192 | after unmapping a range, a user page is free, and on the free list, exactly if no mapping outside the range had it |
| `Spaces.SpaceReturns` | kernel/vm.c:291-297 | after an address space is gone, a user page is free, and on the free list, exactly if no other address space mapped it |
| `Spaces.OnlyTablesTaken` | kernel/vm.c:237-246 | if no mapping has changed and no page was lost, the user pages are the same and pages have left the free list only to become tables |
| `Spaces.ForkTablesTaken` | kernel/vm.c:336-338 | the same of a fork that has been undone |
| `Vm.Vm.constructor` | kernel/kalloc.c:34-75 | all pages from the end of the kernel on are free, each once on the list, all counts 0 |
| `Vm.Vm.Kalloc` | kernel/kalloc.c:113-136 | the first free page with count 1, or nothing exactly when the list is empty |
| `Vm.Vm.Kfree` | kernel/kalloc.c:81-108 | one reference less, or with the last one the page filled with junk and put on the list |
| `Vm.Vm.Walk` | kernel/vm.c:85-103 | the slot of the page's leaf; new tables change no mapping; without alloc nothing changes; fails only with memory exhausted |
| `Vm.Vm.Mappages` | kernel/vm.c:142-165 | exactly one entry of the flat map is added; it cannot fail where the tables exist |
| `Vm.Vm.UnmapUser` | kernel/vm.c:170-192 | exactly one entry removed and one reference dropped; the page is free afterwards exactly if no other mapping had it; no other page changes hands |
| `Vm.Vm.Uvmunmap` | kernel/vm.c:170-192 | exactly the requested pages are unmapped, for every address space and page; a user page is free afterwards exactly if no mapping outside had it, and nothing but that changes hands |
| `Vm.Vm.Uvmcreate` | kernel/vm.c:196-205 | a new address space that maps nothing and has no lower tables; nothing exactly when no page is free |
| `Vm.Vm.AllocOne` | kernel/vm.c:236-246 | one zeroed private page more; it fails only with fewer than three free pages, and then pages have left the free list only to become tables |
| `Vm.Vm.Uvmdealloc` | kernel/vm.c:255-267 | exactly the pages between the rounded sizes go, and those no other mapping has are free |
| `Vm.Vm.Uvmalloc` | kernel/vm.c:225-249 | exactly the pages between the rounded sizes come, zeroed; on failure the map is as before, the result 0, and pages have left the free list only to become tables; at most three pages are used per page asked for, and it fails only with fewer free |
| `Vm.Vm.TakeBack` | kernel/vm.c:237-246 | the rollback of uvmalloc restores the flat map exactly and only gives pages back |
| `Vm.Vm.MarkCow` | kernel/vm.c:318-324 | the parent's entry loses write permission, gains the copy-on-write mark and keeps every other field |
| `Vm.Vm.ShareInto` | kernel/vm.c:325-332 | the child maps the parent's page with an entry equal to the parent's in every field and the page gains one reference; fails only with fewer than two free pages |
| `Spaces.UpFits` | kernel/riscv.h:338-338 | the pages of a size hold it, with less than a page to spare |
| `Vm.Vm.Uvmcopy` | kernel/vm.c:305-339 | child and parent share all pages copy-on-write: both entries are the parent's old one, field by field, with write permission off and the mark on; no byte changes, counts stay exact and no page is lost; on failure the child maps nothing and pages have left the free list only to become tables; fails only for lack of pages |
| `Vm.Vm.UndoCopy` | kernel/vm.c:336-338 | the error path unmaps everything the child got |
| `Vm.Vm.Remap` | kernel/trap.c:64-69 | uvmunmap then mappages at a page whose tables exist never allocates and never fails |
| `Vm.Vm.Unshare` | kernel/trap.c:50-76 | the page becomes writable and private with the bytes it held, unless it is shared and memory is exhausted |
| `Vm.Vm.CopyPage` | kernel/trap.c:57-72 | the copying branch: new page, same bytes, one reference moved |
| `Vm.Vm.HandleCow` | kernel/trap.c:32-77 | repairs exactly a valid user copy-on-write page other than page 0 that is private or can be copied, and then only this page of this process has changed; reads a null entry exactly if the address has no level-0 table; otherwise nothing changes |
| `Vm.Vm.Store` | kernel/trap.c:122-131 | a user store succeeds exactly if the page is writable or can be made so, and then changes one byte of one page of one process; the handler reads a null entry exactly without a level-0 table |
| `Vm.Vm.CopyoutByte` | kernel/vm.c:360-379 | one byte of copyout: succeeds exactly on a valid user page, and writes to that page whatever the entry says about writing |
| `StoreRights.ForkAndRepair` | kernel/trap.c:50-76 | fork and then a store fault: the entry is the one before fork in every field but the page number, the page shows the same bytes, and with pages to spare it succeeds |
| `StoreRights.ForkPage` | kernel/vm.c:305-339 | fork leaves the parent's entry as it was in every field but write permission and the mark, and the page's bytes alone; with pages to spare it succeeds and one page is left |
| `StoreRights.SharedIsNotPrivate` | kernel/vm.c:305-339 | no page shared by a fork is private |
| `StoreRights.StoreAfterFork` | kernel/trap.c:32-77 | after a fork parent and child may store to a shared page exactly if it is a user page other than page 0 and a page is free for the copy |
| `StoreRights.StoreRightsKeptIff` | kernel/vm.c:305-339 | whether fork leaves the parent's right to store to a page as it was, for every amount of memory it leaves |
| `StoreRights.StoreRightsKeptBefore` | kernel/vm.c:305-339 | with memory for the fork and a copy, the right is kept exactly on pages that are not the user's, on page 0 if it was read-only, and on other pages that were writable or copy-on-write: a condition on the entry before the fork |
| `StoreRights.ForkKeepsRight` | kernel/vm.c:305-339 | the same of uvmcopy, which then succeeds |
| `StoreRights.ForkTakesPageZero` | kernel/trap.c:46-48 | the first failing input: a process that could store to its page 0 is killed for it after a fork |
| `StoreRights.ForkOpensReadOnlyPage` | kernel/vm.c:323-324 | the second: a process that could not store to a read-only page can after a fork |
| `StoreRights.NewSpaceHasNoTables` | kernel/trap.c:41-44 | the third: in a new address space every store below MAXVA makes the handler read a null entry |
| `StoreRights.KernelWriteIsolatedIff` | kernel/vm.c:360-379 | a kernel write to user memory that changes a byte is seen by no other mapping if and only if the page's count is 1 |
| `Vm.Vm.Freewalk` | kernel/vm.c:271-287 | every table below the given one, and it itself, goes to the free list exactly once |
| `Vm.Vm.Uvmfree` | kernel/vm.c:291-297 | the address space is gone, all its tables are free, a user page is free exactly if no other address space maps it, and every other address space is as it was |
| `Vm.Vm.ProcPagetable` | kernel/proc.c:239-268 | a new address space with trampoline and trapframe for the supervisor only and nothing else, or nothing, and then fewer than three pages were free; others undisturbed; mapping the trapframe never fails |
| `Vm.Vm.ProcFreepagetable` | kernel/proc.c:273-278 | undoes it: the address space is gone, its tables and the user pages only it mapped are free, every other one is as it was |
| `FsBlocks.BitAfter` | kernel/fs.c:75-77 | setting or clearing a bitmap bit changes that bit and no other |
| `FsBlocks.WordAfter` | kernel/fs.c:407-413 | storing an entry of an indirect block changes that entry and no other, and reads back |
| `FsBlocks.FirstBits` | mkfs/mkfs.c:235-248 | the bitmap block has exactly the first used bits set |
| `FsState.BlocksOwnedOnce` | kernel/fs.c:382-421 | no block is reached from two places, none doubles as an indirect block, and each has its bit set |
| `FsState.TakeStep` | kernel/fs.c:65-88 | allocating a free block keeps bitmap and ownership exact and moves no file block |
| `FsState.ReleaseStep` | kernel/fs.c:91-105 | freeing an unreachable block keeps bitmap and ownership exact and moves no file block |
| `FsState.LinkDirectStep` | kernel/fs.c:388-394 | a new direct block is owned by its place; every other file block stays |
| `FsState.LinkIndirectExtends` | kernel/fs.c:401-406 | a new zeroed indirect block adds no file block |
| `FsState.LinkEntryStep` | kernel/fs.c:409-415 | a new entry is owned by its place; every other file block stays |
| `FsFiles.WrittenAfterStore` | kernel/fs.c:516-528 | one more piece of a write, up to the end of a block, for every byte of every file |
| `FsFiles.WrittenHasNoHoles` | kernel/fs.c:530-531 | the size writei leaves behind exposes no missing block |
| `FsFiles.WriteIsSplice` | kernel/fs.c:505-539 | block-wise writing is splicing of byte sequences |
| `FsFiles.NewBlocksWereFree` | kernel/fs.c:382-421 | every block a write adds to a file was free before and has its bit set after |
| `FsFiles.FlushStep` | kernel/fs.c:225-241 | after iupdate the dinode on disk is the in-core inode, every other dinode and all contents unchanged |
| `FsFiles.BlankIsSound` | mkfs/mkfs.c:235-248 | a fresh image satisfies the invariant |
| `FsLedger.CountTurn` | kernel/fs.c:516-528 | every turn but the last ends at a block boundary, and a first turn inside a block allocates nothing |
| `FsLedger.ChunkBound` | kernel/file.c:149-174 | a write of at most three blocks logs at most MAXOPBLOCKS - 1 distinct data, bitmap and indirect blocks, one more where files may have holes |
| `FsTight.LimitReached` | kernel/file.c:149-155 | on a tight image, any write of three blocks that logs what it changes logs at least MAXOPBLOCKS blocks, one more with a hole at its start |
| `FsTight.LogsExactly` | kernel/file.c:149-155 | writei on such an image writes all its data and logs exactly MAXOPBLOCKS blocks, or MAXOPBLOCKS + 1 with the hole |
| `FsTight.TightImage` | kernel/file.c:149-155 | both kinds of tight image exist, as sound file systems behind boot block, superblock and log |
| `FsTrunc.DirectStep` | kernel/fs.c:432-437 | each direct block of the file, and no other, is freed; its bit was set |
| `FsTrunc.EntryStep` | kernel/fs.c:442-445 | each entry of the indirect block, and no other, is freed; its bit was set |
| `FsTrunc.TruncEnds` | kernel/fs.c:425-453 | the file's blocks and only those are free in the end, and all other files are as before |
| `Fs.PutInode` | kernel/fs.c:233-238 | the sixteen words of the dinode are those of the in-core inode |
| `Fs.FileSystem.constructor` | mkfs/mkfs.c:235-248 | a sound file system with empty files |
| `Fs.FileSystem.Balloc` | kernel/fs.c:65-88 | the lowest free block, marked, zeroed and logged, or 0 exactly when the disk is full |
| `Fs.FileSystem.Bfree` | kernel/fs.c:91-105 | clears the bit; panics exactly if it was clear |
| `Fs.FileSystem.Bmap` | kernel/fs.c:382-421 | the block of the file, allocated if missing; an existing one changes nothing; panics exactly from MAXFILE on; 0 only on a full disk; every changed block is logged, and which these may be |
| `Fs.FileSystem.LoadIndirect` | kernel/fs.c:400-406 | the indirect block exists afterwards unless the disk is full; no file block moves |
| `Fs.FileSystem.Iupdate` | kernel/fs.c:225-241 | every dinode on disk equals its in-core copy; contents unchanged |
| `FsFiles.SyncedIsLoaded` | kernel/fs.c:303-311 | ilock reads an inode back exactly if its dinode is in step with it |
| `FsFiles.UpdateThenLock` | kernel/fs.c:225-311 | what iupdate writes ilock reads back, and every other inode is read as before |
| `Fs.GetInode` | kernel/fs.c:305-311 | ilock's copy loop reads the dinode at that place of the block |
| `Fs.FileSystem.Readi` | kernel/fs.c:471-496 | the slice of the contents, or nothing on a bad range; nothing is allocated or logged |
| `Fs.FileSystem.WriteBlock` | kernel/fs.c:516-528 | one turn of the loop: the next piece written, or 0 with the disk full; what it logs is accounted for |
| `Fs.FileSystem.WriteBlocks` | kernel/fs.c:516-528 | the loop: a prefix of the data written, all of it unless the disk fills up |
| `Fs.FileSystem.Writei` | kernel/fs.c:505-539 | fails exactly on a bad range; otherwise the contents are spliced with the returned prefix, short only on a full disk, other files unchanged, type and links of every inode kept; every changed block is logged; at most MAXOPBLOCKS blocks logged by three blocks of data, one more with holes |
| `Fs.FileSystem.TruncDirect` | kernel/fs.c:432-437 | the direct blocks are freed one by one and no bfree panics |
| `Fs.FileSystem.TruncIndirect` | kernel/fs.c:439-449 | the entries and then the indirect block are freed and no bfree panics |
| `Fs.FileSystem.Itrunc` | kernel/fs.c:425-453 | exactly the file's blocks become free, the file is empty, its inode keeps type and links with size and all addresses 0, every other inode and file unchanged; every changed block is logged, at most the bitmap blocks and one more |
| `FsTrunc.TruncatedInode` | kernel/fs.c:425-453 | the inode of a truncated file has every address 0 |
| `Fs.FileSystem.WriteChunk` | kernel/file.c:157-174 | one operation writes a prefix of its chunk, changes no inode but this file's size and addresses, and logs at most MAXOPBLOCKS blocks on a file system without holes |
| `Fs.FileSystem.Filewrite` | kernel/file.c:134-181 | the chunks together splice a prefix of the data, the offset moves with it, the result is n or -1, short only for the reasons of writei, no inode changes but this file's size and addresses; its operations take the disk from the old to the new state, each logs all it changes and at most MAXOPBLOCKS blocks on a file system without holes |
| `Fs.FileSystem.NextChunk` | kernel/file.c:154-160 | each chunk is three blocks' worth, or what is left |
| `Umalloc.InsertStep` | user/umalloc.c:33-43 | linking a block between non-adjacent neighbours keeps the ring ordered and blocks disjoint |
| `Umalloc.AbsorbUpStep` | user/umalloc.c:33-35 | merging with the upper neighbour conserves units and leaves nothing adjacent above |
| `Umalloc.AbsorbDownStep` | user/umalloc.c:38-40 | merging into the lower neighbour conserves units and leaves no two adjacent free blocks |
| `Umalloc.TakeStep` | user/umalloc.c:76-77 | handing out an exact fit keeps the ring and all other blocks |
| `Umalloc.SplitStep` | user/umalloc.c:78-82 | handing out the tail of a larger block keeps blocks disjoint and units conserved |
| `Umalloc.GrowIff` | user/umalloc.c:46-61 | the heap stays sound exactly if the new header claims what sbrk gave |
| `Umalloc.SbrkLimit` | user/umalloc.c:54-54 | for every 32-bit request, sbrk's int argument is faithful exactly up to 0x7FFFFFE0 bytes |
| `Umalloc.MorecoreSoundIff` | user/umalloc.c:46-61 | so morecore leaves a sound heap on exactly these requests |
| `Umalloc.LargestRequest` | user/umalloc.c:46-61 | the counterexample: the largest request asks sbrk for 16 bytes |
| `Umalloc.FreeStep` | user/umalloc.c:24-44 | free keeps every invariant, gives back exactly the block, and leaves a free block at least as large |
| `Umalloc.SearchStep` | user/umalloc.c:30-32 | the two exits of the search hold exactly at the place where the block belongs |
| `Umalloc.RelinkedIsFreed` | user/umalloc.c:33-43 | the header updates of free give exactly the ring with the block inserted and merged with whichever neighbours it touches |
| `Umalloc.ScanStep` | user/umalloc.c:74-89 | one turn of malloc's loop: fit found, back at freep with nothing fitting, or one block further |
| `Umalloc.CarveStep` | user/umalloc.c:75-84 | the block handed out is new, of exactly the size asked, and all others keep theirs |
| `Umalloc.Allocator.Search` | user/umalloc.c:30-32 | terminates at the block's place in address order, from any freep |
| `Umalloc.Allocator.Free` | user/umalloc.c:24-44 | the block leaves the live ones, units unchanged, ring and coalescing invariants kept |
| `Umalloc.Allocator.Morecore` | user/umalloc.c:46-61 | the new units join as one free block of at least the size asked, or nothing changes |
| `Umalloc.Allocator.Malloc` | user/umalloc.c:63-90 | terminates with a new block of exactly the rounded size, which holds the bytes and wastes less than a header; sbrk is asked at most once and only if nothing fits; fails only if sbrk refuses |
| `Umalloc.NUnitsFit` | user/umalloc.c:69-69 | the units behind the header hold the bytes asked for, and not one whole unit too many |
| `ShellRoundTrip.OperandRoundTrip` | user/sh.c:375-447 | a printed operand, simple or parenthesised, with its redirections, parses back to itself |
| `ShellRoundTrip.PipeRoundTrip` | user/sh.c:362-373 | the same for pipelines |
| `ShellRoundTrip.BackRoundTrip` | user/sh.c:350-354 | the same for any number of ampersands |
| `ShellRoundTrip.LineRoundTrip` | user/sh.c:345-360 | the same for lists, before end of input or a closing parenthesis |
| `ShellRoundTrip.CommandRoundTrip` | user/sh.c:328-360 | over tokens, parsing the printed form of every command with fewer than MAXARGS arguments each gives the command back |
| `ShellLanguage.SimpleIs` | user/sh.c:416-447 | parseexec on any tokens: it passes the longest run of fewer than MAXARGS words and of redirections in any order, its command is the redirections in order over the words in order, and the token it stops at decides between success and each of its three panics |
| `ShellLanguage.ExtentIs` | user/sh.c:428-444 | that run is words and redirections, with fewer than MAXARGS words, and ends before a word only if there are no more allowed, before a redirection only if its file is missing |
| `ShellLanguage.SimpleOfItems` | user/sh.c:416-447 | every interleaving of fewer than MAXARGS words and any redirections, up to a token that ends it, gives the chain of the redirections over the words |
| `ShellLanguage.RedirsIs` | user/sh.c:375-398 | parseredirs takes exactly the redirections in front, in order, and panics exactly at one without a file |
| `ShellLanguage.CommandIsLine` | user/sh.c:328-447 | the parser accepts exactly the token sequences of a grammar stated without it, and gives each the one command it is |
| `ShellInput.LexIs` | user/sh.c:266-309 | the scanner finds exactly the tokens a text spells, with any white space or none between them and each as long as it can be |
| `ShellInput.TextMeans` | user/sh.c:266-447 | scanning and parsing any text gives a command exactly if the text is that command |
| `ShellInput.MeansOne` | user/sh.c:266-447 | no text is two commands |
| `ShellInput.LineText` | user/sh.c:266-447 | tokens written out with blanks are read back as a command exactly if they are that command |
| `ShellInput.ItemsText` | user/sh.c:416-447 | words and redirections written in any order are read back as the redirections over the words |
| `ShellText.LexOk` | user/sh.c:266-309 | every word token is a maximal run of word characters |
| `ShellText.LineRead` | user/sh.c:345-447 | parsing positions and then reading them as strings is parsing strings, and every word of the tree is a word of the text |
| `ShellText.LexRendered` | user/sh.c:266-309 | scanning printed tokens gives the tokens back |
| `ShellText.TextRoundTrip` | user/sh.c:266-447 | for every command tree with valid words and fewer than MAXARGS arguments each, scanning and parsing its text gives the tree back |
| `Shell.Peek` | user/sh.c:311-321 | true exactly if the next token starts with one of the symbols; consumes exactly the white space |
| `Shell.GetToken` | user/sh.c:266-309 | the next token and its span, and the position where the remaining tokens start, past all white space; it advances unless at the end |
| `Shell.ParseRedirs` | user/sh.c:375-398 | terminates and follows the grammar, including the missing-file panic |
| `Shell.ParseExec` | user/sh.c:416-447 | terminates and follows the grammar, including the syntax and too-many-arguments panics; ShellLanguage.SimpleIs says what the grammar gives |
| `Shell.ParseBlock` | user/sh.c:400-414 | terminates and follows the grammar, including the missing-parenthesis panic |
| `Shell.ParsePipe` | user/sh.c:362-373 | terminates and follows the grammar |
| `Shell.ParseLine` | user/sh.c:345-360 | terminates and follows the grammar |
| `Shell.NulTerminate` | user/sh.c:450-494 | writes NUL at exactly the ends of the command's words |
| `Shell.EndsOutsideWords` | user/sh.c:450-494 | no word contains the end of another |
| `Shell.TerminatedCmd` | user/sh.c:450-494 | every argv entry and file name becomes exactly the C string it was in the text |
| `Shell.ParseCmd` | user/sh.c:328-343 | the tree the grammar gives, with every word a C string in the buffer, or exactly the grammar's panic and an untouched buffer; the C strings are the command the text is, and it panics exactly if the text is no command |
| `Shell.ParseText` | user/sh.c:328-343 | a buffer that begins with the text of a command and a NUL parses to a tree whose C strings are that command |
| `ExitWait.BootInv` | kernel/proc.c:462-507 | the state after boot satisfies the protocol invariant |
| `ExitWaitRuns.LocalKeeps` | kernel/proc.c:851-900 | a step that changes no parent and ends no process keeps the invariant |
| `ExitWaitRuns.LookAtKeeps` | kernel/proc.c:474-479 | wait looks at a child only with its lock held |
| `ExitWaitRuns.ReapKeeps` | kernel/proc.c:480-492 | reaping keeps the invariant |
| `ExitWaitRuns.ReleaseDozeKeeps` | kernel/proc.c:863-868 | giving up wait_lock to sleep keeps the invariant: the process has no exited child |
| `ExitWaitRuns.GiveAwayKeeps` | kernel/proc.c:401-412 | passing a child to init keeps the invariant: init is about to be woken |
| `ExitWaitRuns.WakeInitKeeps` | kernel/proc.c:884-900 | each step of wakeup(initproc) keeps the invariant |
| `ExitWaitRuns.WakeParentKeeps` | kernel/proc.c:884-900 | each step of wakeup(p->parent) keeps the invariant |
| `ExitWaitRuns.DieKeeps` | kernel/proc.c:447-453 | becoming ZOMBIE keeps the invariant: the parent is awake |
| `ExitWaitRuns.KillKeeps` | kernel/proc.c:905-924 | kill keeps the invariant |
| `ExitWaitRuns.AllocKeeps` | kernel/proc.c:341-360 | fork's allocation gives a fresh process id to a free slot |
| `ExitWaitRuns.SetParentKeeps` | kernel/proc.c:380-382 | setting the parent under wait_lock keeps the invariant |
| `ExitWaitRuns.NextKeeps` | kernel/proc.c:341-507 | every step of every process, in any interleaving, keeps the invariant on locks, run states, parents, process ids and wakeups; what havekids means is WaitGivesUp.NextKids |
| `ExitWaitRuns.NoLostWakeup` | kernel/proc.c:401-507 | in every run, whenever wait_lock is free no process asleep in wait has a ZOMBIE child |
| `ExitWaitRuns.NoOrphans` | kernel/proc.c:401-412 | in every run, every process but init has a parent that has not exited |
| `ExitWaitRuns.OrphansPassToInit` | kernel/proc.c:401-412 | in every run, a process changes parent only to init while its parent is in reparent, or is reaped by that parent |
| `ExitWaitRuns.ReapedAtMostOnce` | kernel/proc.c:480-492 | in every run, no process id is reaped twice |
| `ExitWaitRuns.ReapedIsGone` | kernel/proc.c:475-492 | in every run, what is reaped is off the CPU for good |
| `WaitGivesUp.NextKids` | kernel/proc.c:473-479 | every step keeps: while wait scans, havekids is set exactly if an entry already passed is a child |
| `WaitGivesUp.GivesUpIff` | kernel/proc.c:497-505 | in every run, the end of a scan leads out of wait exactly if the process is killed or no table entry has it as parent, and otherwise to sleep |
| `WaitGivesUp.KillWakes` | kernel/proc.c:905-924 | kill sets the flag and leaves nobody asleep, keeps place, parent and process id, and changes no other process |
| `ProcessStates.EveryStepLives` | kernel/proc.c:127-146 | in every run, every table entry follows the state diagram, gets the CPU only from RUNNABLE and with its lock free, keeps its process id until it is freed, and is killed only by kill |
| `ExitWaitProgress.HolderMoves` | kernel/proc.c:401-507 | the holder of wait_lock can move, or waits for a process that can |
| `ExitWaitProgress.NoDeadlock` | kernel/proc.c:341-507 | in every run, a process inside wait, exit or fork can move, or waits for one that can, or waits for one that waits for one that can |
| `ExitWaitProgress.HolderNearer` | kernel/proc.c:401-507 | each step of the holder of wait_lock brings it nearer to giving it back |
| `ExitWaitProgress.HeldBoundedly` | kernel/proc.c:401-507 | in every run, a process takes fewer than n * (n + 2) + n + 5 steps, n the size of the table, without giving wait_lock back |
| `ExitWaitProgress.OutsideIsFree` | kernel/proc.c:341-924 | preemption, sleep and wakeup outside wait, kill, the calls of wait, exit and fork, and the failures inside them are possible in every state that fits them |
| `Mlfq.DequeueSoundIff` | kernel/proc.c:571-583 | removing an entry leaves a duplicate-free list without it exactly if the level was not full |
| `Mlfq.PickSoundIff` | kernel/proc.c:744-760 | taking the head of the highest non-empty level leaves a sound level exactly if no level is full |
| `Mlfq.ScanConserves` | kernel/proc.c:731-742 | the in-place scan loses and duplicates nobody: what stays and what moves up is the level |
| `Mlfq.IdleMeansRoom` | kernel/proc.c:720-760 | with some process not RUNNABLE no level fills up, neither by collecting nor by ageing |
| `Mlfq.AgeingCanFillALevel` | kernel/proc.c:731-742 | with all RUNNABLE it can: a state with room on every level whose ageing fills the top one |
| `MlfqRuns.DequeueBreaks` | kernel/proc.c:571-583 | a run from start-up: all processes made RUNNABLE and collected fill the top level, and taking the first off breaks the queues |
| `MlfqRuns.AgeingFillsALevel` | kernel/proc.c:731-742 | a run from start-up in which ageing fills the top level |
| `Mlfq.QueuedOnce` | kernel/proc.c:585-600 | no process is in two places of the queues |
| `Mlfq.EnqueueStep` | kernel/proc.c:585-600 | a RUNNABLE process that is not queued always finds room on its level |
| `Mlfq.DequeueStep` | kernel/proc.c:571-583 | on a level that is not full the shift removes exactly that process |
| `Mlfq.Shift` | kernel/proc.c:577-579 | the inner loop moves every later entry one place and leaves the last slot as it was |
| `Mlfq.Scheduler.QueueProc` | kernel/proc.c:585-600 | the process is at the end of its level, or where it already was |
| `Mlfq.Scheduler.DequeueProc` | kernel/proc.c:571-583 | closes the gap; nothing if not queued; sound on a level that is not full |
| `Mlfq.Scheduler.Collect` | kernel/proc.c:721-729 | every RUNNABLE process is queued, behind those queued before, in table order |
| `Mlfq.Scheduler.Age` | kernel/proc.c:731-742 | with no level below the top full, the levels become exactly those of the in-place scan: processes that waited 30 ticks leave their level for the end of the one above, but the scan passes over the entry after each one it removes; nobody moves more than one level |
| `Mlfq.Scheduler.AgeLevel` | kernel/proc.c:732-741 | one level of the scan, which leaves room on every level below |
| `Mlfq.Scheduler.Promote` | kernel/proc.c:734-740 | one promotion: off its place, to the end of the level above, waiting time 0, everything else kept |
| `Mlfq.Scheduler.Pick` | kernel/proc.c:744-760 | with no level full, takes the FIFO head of the highest level that is not empty, or nothing exactly if all are empty |
| `Mlfq.Scheduler.Pass` | kernel/proc.c:720-760 | a whole pass, with room after collecting and after ageing: all RUNNABLE processes queued, promoted at most one level, and the head of the highest level chosen; nothing only if none is RUNNABLE |
| `Mlfq.Scheduler.Tick` | kernel/trap.c:165-202 | a timer tick in user mode: every queued process waits one tick more, the slice ends exactly after 2^level ticks, and then the process moves down one level unless it is on the last |
| `Mlfq.Scheduler.KernelTick` | kernel/trap.c:304-316 | a timer tick in kernel mode: every queued process waits one tick more, level and slice of the running one are kept, and it gives up the CPU |
| `Mlfq.Scheduler.Outranked` | kernel/trap.c:205-215 | the check from a level on, resumed after each yield: gives up the CPU exactly if a higher level from there on is not empty, at the first such |
| `Mlfq.Scheduler.Occupied` | kernel/trap.c:207-209 | the scan of a level ends at its length |
| `Mlfq.Scheduler.Reset` | kernel/proc.c:173-175 | the reset of level and ticks by allocproc and freeproc keeps the queues sound |
| `Mlfq.Scheduler.CountWaiting` | kernel/trap.c:168-177 | every queued process waits exactly one tick more, all others none |
| `VirtioState.RingPut` | kernel/virtio_disk.c:272-272 | a new ring entry overwrites none that is still waiting |
| `VirtioState.RingTake` | kernel/virtio_disk.c:314-314 | the entry read is the oldest waiting one |
| `VirtioState.Wrapped` | kernel/virtio_disk.c:277-277 | the 16-bit index may wrap without the ring position changing |
| `VirtioState.WrappedEqual` | kernel/virtio_disk.c:312-312 | the two wrapped indices are equal exactly when nothing is waiting |
| `VirtioState.PostStep` | kernel/virtio_disk.c:239-277 | posting a formatted chain of three held descriptors keeps chains disjoint and the rings exact |
| `VirtioState.FetchStep` | kernel/virtio_disk.c:272-277 | the device finds the oldest posted request |
| `VirtioState.ReportStep` | kernel/virtio_disk.c:309-312 | reporting a request, in any order and with any status, overwrites no unread entry |
| `VirtioState.HandleStep` | kernel/virtio_disk.c:312-324 | the interrupt finds the oldest reported request with the status the device gave it, and its buffer still busy |
| `VirtioState.DetachStep` | kernel/virtio_disk.c:288-289 | forgetting a finished request keeps every other one |
| `VirtioState.DescriptorsConserved` | kernel/virtio_disk.c:155-197 | free descriptors, those in hand, and three per request in flight always total NUM |
| `Virtio.VirtioDisk.DescriptorsTotal` | kernel/virtio_disk.c:155-197 | whenever vdisk_lock is free, free descriptors and three per request in flight total NUM |
| `Virtio.VirtioDisk.constructor` | kernel/virtio_disk.c:120-146 | all descriptors free, none in hand, nothing in flight |
| `Virtio.VirtioDisk.AllocDesc` | kernel/virtio_disk.c:156-166 | the lowest free descriptor, or -1 exactly when none is free |
| `Virtio.VirtioDisk.FreeDesc` | kernel/virtio_disk.c:169-182 | frees and clears it; panics exactly out of range or if already free |
| `Virtio.VirtioDisk.FreeChain` | kernel/virtio_disk.c:185-197 | frees exactly the three descriptors of the chain and never panics |
| `Virtio.VirtioDisk.Alloc3Desc` | kernel/virtio_disk.c:201-213 | three distinct descriptors, or none taken exactly when fewer than three were free |
| `Virtio.VirtioDisk.Submit` | kernel/virtio_disk.c:215-281 | a request for this buffer is posted, or fewer than three descriptors are free; either way none beyond the request's stays in hand; below block 2^31 its sector is where the block lies on the disk |
| `Virtio.SectorExact` | kernel/virtio_disk.c:218-218 | the 32-bit product is the block's place on the disk exactly below block 2^31 |
| `Virtio.SectorsApart` | kernel/virtio_disk.c:218-218 | different blocks below 2^31 do not share a sector |
| `Virtio.VirtioDisk.Finish` | kernel/virtio_disk.c:284-291 | the request and exactly its three descriptors are released |
| `Virtio.VirtioDisk.IntrOne` | kernel/virtio_disk.c:312-324 | panics exactly if the device reported an error for the oldest reported request; otherwise that request is completed and its buffer, which was busy, is not any more |
| `Virtio.VirtioDisk.Intr` | kernel/virtio_disk.c:294-327 | with the device fetching and reporting at will while the loop runs: every reported request is completed, once, and the loop ends, unless it stops at an error status; only requests that succeeded are completed; where it ends is what handling the reports one by one, in order, leads to |
| `Virtio.VirtioDisk.DeviceFetch` | kernel/virtio_disk.c:272-281 | the device takes posted requests in order, each once |
| `Virtio.VirtioDisk.DeviceReport` | kernel/virtio_disk.c:309-312 | the device reports a request it holds with a status of its choice |
| `Pipe.FullAndEmpty` | kernel/pipe.c:88-88 | the comparisons of the wrapping counters mean full and empty |
| `Pipe.PutStep` | kernel/pipe.c:95-95 | one byte is appended to what the ring holds |
| `Pipe.TakeStep` | kernel/pipe.c:123-123 | the byte removed is the oldest the ring holds |
| `Pipe.PipeBuffer.constructor` | kernel/pipe.c:22-46 | an empty open pipe, whatever the page held |
| `Pipe.PipeBuffer.Write` | kernel/pipe.c:76-103 | between two sleeps, with a kill arriving at any point: the bytes accepted are the next ones of the source, and it returns the count, -1 exactly if the reader is gone or it is killed before the end, the count so far at unreadable memory, or sleeps exactly when full |
| `Pipe.PipeBuffer.Read` | kernel/pipe.c:105-130 | the bytes delivered are the next accepted ones; it sleeps exactly if the pipe is empty and open and the process not killed, returns -1 exactly if it is killed then, and 0 for a positive count exactly at end of file; a byte is lost exactly if the user memory ends before the count and before the pipe is empty, and then one |
| `Pipe.ByteLost` | kernel/pipe.c:119-127 | an input at which a byte is lost: two bytes written, room for one, and the second is never delivered |
| `Grep.DenotesOne` | user/grep.c:92-93 | what a character or dot followed by a pattern means |
| `Grep.DenotesStar` | user/grep.c:98-105 | c* takes nothing, or one character and is tried again |
| `Grep.MatchHere` | user/grep.c:84-95 | true exactly if the text starts with pieces that fit the items of the pattern |
| `Grep.MatchStar` | user/grep.c:98-105 | true exactly if the text starts with an instance of c* followed by the pattern |
| `Grep.Match` | user/grep.c:71-81 | true exactly if the pattern, anchored or not, matches somewhere in the text |

## Left out

- Vm.Vm.Mappages: one page at a time, as user memory is mapped; the multi-page loop only serves the kernel's boot mappings.
- Vm.Vm.Store: stands for the hardware's store and the fault path of usertrap together; accessed and dirty bits and the TLB are not modelled.
- Vm.Vm.Uvmunmap: without do_free it is for the kernel's pages in a user table; the one call that unmaps user memory without freeing it is part of Vm.Vm.Remap.
- Vm.Vm.ProcFreepagetable: the trapframe is still the kernel's page; freeproc hands it to kfree just before.
- Vm.Vm.CopyoutByte: one byte, where copyout moves up to a page at a time.
- Log.Log.Commit: readers come and go between its writes, not inside a round, and none of them reads a block it logs; a commit that waits for such a buffer, and readers that wait for one, are not modelled.
- Log.Log.WriteLog: the same.
- Log.Log.InstallTrans: the same, and nobody reads during recovery.
- Log.Log.CommitBlocks: the same.
- Log.Log.LogOne: is taken once the buffers it needs are free.
- Log.Log.InstallOne: is taken once the buffers it needs are free.
- Log.Log.ReaderStep: of blocks that are not pinned; a reader of a pinned block takes no further buffer, but commit may have to wait for it.
- Log.Log.WriteHead: is taken once the header's buffer is free.
- Log.Log.LogWrite: the operation adds no more blocks than it has reserved, which kernel/param.h:10 demands.
- Log.Log.Update: is taken once the buffer's sleep lock is free.
- CrashSafe.FileStack.End: as Log.Log.Commit.
- CrashSafe.FileStack.CommitFiles: as Log.Log.Commit.
- CrashSafe.FileStack.Replay: passes each changed block once and finds its buffer free; the code logs some blocks several times, which is refused when LOGSIZE blocks are logged (LogRuns.RewriteRefused).
- Log.Log.Read: is taken once the buffer's sleep lock is free.
- Bio.Bcache.Bread: is taken once the buffer's sleep lock is free; the queue of waiters is not modelled.
- CrashSafe.FileStack.Write: no buffer is held when the operation's blocks are passed to the log, and they are passed at its end, where the code does so in between.
- CrashSafe.FileStack.AfterAnyCrash: for writes and truncation; operations that create or link files are not put over the log.
- CrashSafe.FileStack.Truncate: no buffer is held, as for CrashSafe.FileStack.Write; on a disk with more bitmap blocks itrunc may log more than an operation reserves.
- Fs.FileSystem.Writei: user memory can be read throughout; a copy that fails half way, which leaves a changed buffer unlogged, is not modelled.
- Fs.FileSystem.WriteBlocks: the same.
- Fs.FileSystem.WriteBlock: the same.
- Fs.FileSystem.Readi: user memory can be written throughout, and files have no holes; with one, bmap would allocate while reading.
- Umalloc.Allocator.Morecore: requests that sbrk's int argument can carry; on all others Umalloc.MorecoreSoundIff says that the heap is broken.
- Umalloc.Allocator.Malloc: the same, that is up to 0x7FFFFFE0 bytes.
- Mlfq.Scheduler.Tick: in user mode; Mlfq.Scheduler.KernelTick is the tick in the kernel.
- Mlfq.Scheduler.Pass: on one CPU; with a level full after collecting or ageing, dequeue_proc breaks the queues as Mlfq.DequeueSoundIff says, and what a broken queue leads to is not followed.
- Mlfq.Scheduler.Age: the same.
- Mlfq.Scheduler.AgeLevel: the same.
- Mlfq.Scheduler.Promote: the same.
- Mlfq.Scheduler.Pick: the same.
- Virtio.VirtioDisk.Submit: the caller holds the buffer's lock, so no other request is for that buffer.
- Shell.ParseExec: an exec node is extended functionally where the code fills it in through a second pointer.
- A second disk device; inode allocation, directories, path names and link counts; the in-core inode table and its locks.
- mkfs beyond an empty image.
- uvmfirst, uvmclear, copyin, exec and the kernel's own page table.
- The locks of memory management, among them the flag of the reference-count table that tells kalloc whether to take that table's lock (kernel/kalloc.c:124-131); handleCOW's return for lack of memory leaves it cleared (kernel/trap.c:58-61).
- Widths of counters in memory other than the ones that wrap in practice: reference counts, process ids and ticks are unbounded.
- The RR, FCFS, LOTTERY and PBS schedulers, sigalarm, tracing and the other system calls.
- Spinlocks, fences and interrupts as such: a lock is taken and released atomically.
- grep's line reading, the shell's execution of the parsed command, and the remaining user programs.
