# Proofs about xv6 with kernel threads

A Dafny model of the parts of this RISC-V xv6 where tests settle little, and proofs of
what those parts are there for. Code that works by changing things step by step is
modelled as classes and methods with the same loops and branches; code whose point is
how it interleaves is modelled as a step system, with theorems over every run.

* **Crash-safe storage.** `common`, `blocks`, `lru_list`, `bcache`, `log_disk`, `log`: the buffer
  cache and the redo log over a disk of blocks. Every block written is recorded, so
  the contracts of `Commit` and `RecoverFromLog` speak about a crash after any write.
  `storage_steps` interleaves readers, writers, commits, crashes and recoveries.
  `reservation` is the admission control of `begin_op`.
* **Files.** `fs_disk`, `fs_blocks`, `fs_content`, `fs`: bitmap, inodes, direct and
  indirect blocks, file contents, and the chunks of `filewrite`, over the logical disk
  that cache and log provide (`bread` returns what the block holds; `log_write` adds it
  to the transaction).
* **Memory.** `page_tables`, `vm`, `user_memory`, `user_copy`, `address_spaces`, `exec`:
  the page allocator, three-level Sv39 tables as a finite map, growing, shrinking,
  copying, creating and destroying address spaces, copies to and from user memory,
  and the memory side of exec. Every page of RAM has one use at any time.
* **Blocking and process life.** `wakeup`, `wakeup_clients`: sleep and wakeup with all
  their locks. `exit_wait`: fork, exit and wait of single-threaded processes.
* **Disk driver.** `virtio_queue`, `virtio_disk`: the driver against a device that
  completes requests in any order.
* **Self-contained programs.** `free_list`, `umalloc` (the K&R allocator), `grep` (the
  regular expression matcher), `pipe`, and the shell's parser in `shell_grammar`,
  `shell_parser`, `shell_words`, `shell_syntax`, `shell_roundtrip` and `shell_command`.

Where a method has a source panic it cannot reach, the panic's condition is asserted
false there, or the method has a result for it and the callers' contracts exclude it.
A panic that callers must avoid is a precondition, and every modelled caller meets it.

Some things are not as a reader of the source may expect, and each has its exact
condition. `uvmdealloc` says that `oldsz` can be larger than the process: `uvmunmap` then
panics, as `Uvmdealloc` states for every size. `log_write` lets a call add one block less
than `begin_op` reserves when the log has exactly LOGSIZE blocks
(`TooBigExactlyForTheLastBlock`). A writer that is killed in the middle of `pipewrite`
returns without waking the readers of the bytes it has added (`PipeReaderLost`). A pipe's
page can be freed under a thread that sleeps in `piperead`, since reading takes no
reference to the file (`FreedUnderOperation`). A `writei` whose copy fails part way through
a block leaves bytes in the buffer that it neither logs nor counts (`StrayTrace` and, for
`filewrite`, `FileTrace`; `StrayExample` is an input). exec takes the size 0 that `uvmalloc`
returns for an empty first segment for a failure (`LoadableAt`).

Assumptions: single-block disk writes are atomic; block numbers and file sizes obey the
layout that mkfs makes; `sbrk` hands out memory above the allocator's own `base` and the
break moves only up; addresses in the allocator count 16-byte headers, and addresses in
the memory model count pages; a buffer given to the disk driver has no other request in
flight, since its caller holds the buffer's sleep lock.

## Model

| member | source | states |
|---|---|---|
| `Blocks.GetAfterSet` | kernel/log.c:103-114 | a 32-bit word stored in a block reads back, and no other word changes |
| `LruList.UnlinkLinked` | kernel/bio.c:117-137 | taking a buffer out leaves a doubly linked ring of the others, in order |
| `LruList.PushFrontLinked` | kernel/bio.c:37-53 | putting a buffer behind the head gives the ring with it in front |
| `LruList.MoveToFrontPermutation` | kernel/bio.c:117-137 | moving to the front keeps the list a permutation of all buffers |
| `BufferCache.StandsUnique` | kernel/bio.c:59-89 | at most one buffer ever handed out stands for a block |
| `BufferCache.Bcache.constructor` | kernel/bio.c:37-53 | the initial ring holds every buffer once, and the cache shows the disk |
| `BufferCache.Bcache.Bget` | kernel/bio.c:59-89 | the buffer of the block if there is one, else the least recently used free one; locked, or waiting exactly if another process holds its sleep lock; none exactly if all are referenced; no other buffer changes |
| `BufferCache.Bcache.Claim` | kernel/bio.c:64-87 | under bcache.lock: one reference more to the one buffer of the block, contended or not; a recycled buffer gives its old block back to the disk |
| `BufferCache.Bcache.AcquireSleep` | kernel/sleeplock.c:22-31 | takes a free lock, sleeps on a held one |
| `BufferCache.Bcache.Bread` | kernel/bio.c:93-103 | a locked, valid buffer with the block's current contents, or a wait for its lock exactly if another process holds it |
| `BufferCache.Bcache.Fill` | kernel/bio.c:98-102 | with the lock held, the buffer becomes valid with the current contents |
| `BufferCache.Bcache.Bwrite` | kernel/bio.c:107-112 | exactly one block of the disk becomes the buffer's contents, if the caller holds the lock |
| `BufferCache.Bcache.Brelse` | kernel/bio.c:117-137 | drops one reference; the last one moves the buffer to the front; refused without the lock; recycling then loses contents exactly if the disk lacks them and this was the last reference |
| `BufferCache.Bcache.ReleaseSleep` | kernel/sleeplock.c:33-41 | the sleep lock is free, the reference stays; all that holds of the cache holds in between |
| `BufferCache.Bcache.DropRef` | kernel/bio.c:125-137 | the second half of brelse, also if another process has taken the sleep lock since |
| `BufferCache.Bcache.Bpin` | kernel/bio.c:140-144 | one reference more on that block only |
| `BufferCache.Bcache.Bunpin` | kernel/bio.c:147-151 | one reference less on that block only; the same on what recycling can lose |
| `LogDisk.HeaderRoundTrip` | kernel/log.c:87-114 | the header read back lists the blocks that were written to it |
| `LogDisk.CrashWhileLogging` | kernel/log.c:179-191 | a crash during the copy to the log recovers the old contents |
| `LogDisk.CrashAfterHeader` | kernel/log.c:103-114 | a crash after the header write recovers the new contents |
| `LogDisk.CrashWhileInstalling` | kernel/log.c:69-83 | a crash after any number of installed blocks recovers the new contents |
| `LogDisk.CrashAfterErase` | kernel/log.c:194-203 | a crash after the log is erased keeps the new contents |
| `LogDisk.InstalledOverlay` | kernel/log.c:69-83 | installing a complete log yields the logged contents at home |
| `Log.Log.WriteLog` | kernel/log.c:179-191 | the log slots get the cached contents of the listed blocks, one write each, nothing else changes |
| `Log.Log.WriteHead` | kernel/log.c:103-114 | one write: the header lists the in-memory numbers |
| `Log.Log.ReadHead` | kernel/log.c:87-97 | the in-memory header becomes what the disk lists |
| `Log.Log.InstallTrans` | kernel/log.c:69-83 | each home block gets its slot's contents, one write each, and loses its pin unless recovering |
| `Log.Log.RecoverFromLog` | kernel/log.c:117-123 | the home blocks become the recovered contents, and a crash after any write of recovery recovers the same |
| `Log.Log.Commit` | kernel/log.c:194-203 | after any write a crash recovers all of the transaction or none of it: the old contents up to the header write, those with the logged blocks as cached from it on; buffers changed and not logged stay out of it |
| `Log.Log.Transaction` | kernel/log.c:127-235 | a whole call, from begin_op through bread, changes, log_write and brelse to the commit in end_op: after any write a crash recovers all its writes or none; at the end the disk has them, its blocks read as written, and the log is ready for the next call |
| `Log.InitLog` | kernel/log.c:53-66 | boot from a disk that crashed anywhere: the recovered home blocks, and a log ready for calls |
| `Log.Log.TryBeginOp` | kernel/log.c:127-142 | admitted exactly if no commit runs and a full reservation fits |
| `Log.Log.EndOp` | kernel/log.c:147-175 | the last operation starts the commit; a panic exactly if one is running |
| `Log.Log.LogWrite` | kernel/log.c:215-235 | records the block once and pins it when it is new; the two panics by name |
| `StorageSteps.NextInv` | kernel/log.c:69-235 | every step of readers, writers, commit, crash and recovery keeps cache, log and disk consistent |
| `StorageSteps.EveryRunIsCrashSafe` | kernel/log.c:69-123 | at every point of every run, inside recovery too, a crash recovers the committed contents |
| `StorageSteps.GroupsCommitWhole` | kernel/log.c:194-203 | when the header is written no operation is in progress and the home blocks are those of the commit before |
| `StorageSteps.CrashRecoversTheLastCommit` | kernel/log.c:117-123 | after any number of crashes, a crash recovers what was logged at the last header write |
| `StorageSteps.ReadersSeeTheLastLogged` | kernel/bio.c:59-103 | a reader gets the last logged contents of the block, unless a writer has released it with a change it has not logged |
| `StorageSteps.StraysComeFrom` | kernel/fs.c:521-526 | which only a writer does whose copy has failed, and whose block was not in the transaction |
| `StorageSteps.ReadersSeeTheLastSurviving` | kernel/log.c:117-235 | through any number of crashes a reader of any other block gets what the last log_write of it that no crash has undone has logged, or the first contents |
| `StorageSteps.LoggedBlocksStayCached` | kernel/log.c:215-235 | a listed block stays cached, valid and referenced until it is installed |
| `StorageSteps.RecoveryRestores` | kernel/log.c:117-123 | when recovery ends the home blocks are the committed contents |
| `Reservation.LogNeverOverbooked` | kernel/log.c:127-175 | in every interleaving logged blocks plus unspent reservations fit the log, and nothing is outstanding during a commit |
| `Reservation.EndNeverPanics` | kernel/log.c:147-175 | the end_op panic is unreachable |
| `Reservation.TooBigExactlyForTheLastBlock` | kernel/log.c:215-220 | with log.size equal to LOGSIZE the guard can fire exactly for a call that has used all but one block of its reservation |
| `Reservation.FullHouseRuns` | kernel/log.c:215-220 | the run in which it fires |
| `FsDisk.SetBitOf` | kernel/fs.c:66-88 | setting a clear bit sets no other |
| `FsDisk.ClearBitOf` | kernel/fs.c:92-105 | clearing a set bit clears no other |
| `FsDisk.MarkedInUse` | kernel/fs.c:66-88 | marking a block changes the bitmap for that block only |
| `FsDisk.MarkedFree` | kernel/fs.c:92-105 | so does freeing one |
| `FsDisk.StoredAfterStore` | kernel/fs.c:226-241 | a stored inode reads back, and no other inode of the block changes |
| `FsBlocks.BitmapExact` | kernel/fs.c:383-421 | a block is in use exactly if it is metadata or some inode names it, and none is named twice |
| `FsBlocks.AllocStep` | kernel/fs.c:66-88 | an allocated block was nobody's, and no file, inode or name changes |
| `FsBlocks.EntryStep` | kernel/fs.c:396-418 | an entry of the indirect block names the new block and changes no other name |
| `FsContent.SpliceAppend` | kernel/fs.c:506-539 | writing in two parts is writing the whole |
| `FsContent.ReportedCount` | kernel/fs.c:516-538 | writei reports the bytes of the blocks that are copied completely, less only if the disk is full and the old end of the file has been passed |
| `FsContent.StrayTrace` | kernel/fs.c:521-526 | writei changes the file beyond the bytes it reports exactly if, among the bytes behind those blocks that can still be copied, one differs from what the file holds there |
| `Fs.StrayWrite` | kernel/fs.c:521-526 | a write of two bytes over a file of two, one of which can be copied, reports 0 bytes and changes one |
| `Fs.StrayExample` | kernel/fs.c:472-539 | from a new file system on: written as 1 2, a failed write reports 0, and 9 2 is read |
| `FsContent.WriteStep` | kernel/fs.c:516-526 | writing into one block splices that file and no other |
| `FsContent.DropStep` | kernel/fs.c:431-448 | freeing a named block finds it in use and keeps the ownership exact |
| `Fs.FileSystem.constructor` | mkfs/mkfs.c:235-248 | an empty file system: empty files, exactly the metadata in use |
| `Fs.FileSystem.Balloc` | kernel/fs.c:66-88 | a free data block, marked and zeroed, two blocks logged; 0 exactly if none is free |
| `Fs.FileSystem.Bmap` | kernel/fs.c:383-421 | the block of the slot, allocated if need be; only that slot and the indirect block can be new; 0 only on a full disk; nothing changes if the block is there |
| `Fs.FileSystem.Readi` | kernel/fs.c:472-496 | exactly the slice of the contents below size; -1 exactly if the destination cannot take it, and then as much as it can take has been stored; nothing allocated or logged |
| `Fs.FileSystem.Writei` | kernel/fs.c:506-539 | the returned number of bytes is spliced in, exactly those of the blocks copied completely unless the disk is full; what a failed copy leaves behind, to the byte, and exactly when that is something; other files unchanged; the bound on logged blocks; refused exactly by the three guards |
| `Fs.FileSystem.Iupdate` | kernel/fs.c:226-241 | the stored inodes are the in-core ones, one block logged |
| `Fs.FileSystem.Bfree` | kernel/fs.c:92-105 | the block's bit is cleared and no other |
| `Fs.FileSystem.Itrunc` | kernel/fs.c:426-453 | the file is empty, exactly its own blocks have become free, and at most the bitmap and one inode block are logged |
| `Fs.FileSystem.WriteChunk` | kernel/file.c:157-172 | one transaction of at most MAXOPBLOCKS blocks, 7 with one bitmap block |
| `Fs.FileSystem.FileWrite` | kernel/file.c:148-175 | all bytes are written or a prefix and -1; where it stops, on a full disk, at a refused chunk or at a failed copy, to the byte; every transaction within the limit |
| `Fs.FileTrace` | kernel/file.c:148-175 | filewrite changes the file beyond the bytes by which it moves the offset exactly if the chunk with the first byte out of reach is not refused and leaves a trace there |
| `PageTables.PopInv` | kernel/kalloc.c:69-82 | taking a page keeps the partition of RAM |
| `PageTables.PushInv` | kernel/kalloc.c:47-63 | so does freeing one |
| `PageTables.AddNodeInv` | kernel/vm.c:86-103 | linking a zeroed table changes no mapping |
| `PageTables.LeafInv` | kernel/vm.c:143-192 | changing one leaf entry changes the map at that page only |
| `Vm.PhysicalMemory.constructor` | kernel/kalloc.c:27-40 | every page after the kernel is free |
| `Vm.PhysicalMemory.Kfree` | kernel/kalloc.c:47-63 | the page is the head of the free list |
| `Vm.PhysicalMemory.Kalloc` | kernel/kalloc.c:69-82 | a page that was free, or 0 exactly if there is none |
| `Vm.PhysicalMemory.Walk` | kernel/vm.c:86-103 | the level-0 table for the page, 0 exactly if there is none |
| `Vm.PhysicalMemory.WalkAlloc` | kernel/vm.c:86-103 | creates exactly the tables on the path to the page that do not exist yet, from free pages; changes no translation; fails exactly if there are fewer free pages than missing tables |
| `Vm.PhysicalMemory.NoSharedEntry` | kernel/riscv.h:348-363 | distinct pages below MAXVA never share an entry |
| `Vm.PhysicalMemory.Mappages` | kernel/vm.c:143-165 | adds exactly its pages to the map, the first ones on failure, which means no page is free; a single page fails exactly if its missing tables need more pages than are free |
| `Vm.PhysicalMemory.Uvmunmap` | kernel/vm.c:171-192 | removes exactly its pages, freeing them or not; panics exactly if one of them is not mapped |
| `UserMemory.BelowTrapframe` | kernel/vm.c:226-249 | by counting pages, a process is smaller than RAM and never reaches the trapframe |
| `UserMemory.Uvmdealloc` | kernel/vm.c:256-267 | for any old size: panics exactly if there is a page to unmap that the process lacks; otherwise exactly those pages are free again |
| `UserMemory.DeallocBeyond` | kernel/vm.c:251-267 | a process of one page said to have two: a panic, although the comment allows it |
| `UserMemory.OrdinaryStop` | kernel/vm.c:256-267 | up to MAXVA the pages to unmap are those between the two sizes |
| `UserMemory.CountTruncated` | kernel/vm.c:261-262 | sizes 2^32 pages apart unmap nothing, as the count is an int |
| `UserMemory.Uvmalloc` | kernel/vm.c:226-249 | zeroed pages V, R, U and as asked, up to the new size; fails exactly if the pages and the tables they need outnumber the free pages; then every page taken is free again and the map is as before |
| `UserMemory.Growproc` | kernel/proc.c:283-298 | growing adds zeroed pages that the process can read and write, and fails exactly if pages and tables outnumber the free pages; shrinking frees exactly the pages above; failure changes neither size nor pages; shrinking below 0 does nothing |
| `UserMemory.Uvmcopy` | kernel/vm.c:306-333 | same contents and flags on fresh pages, the original untouched; fails exactly if pages and tables outnumber the free pages, and then the copy has no pages |
| `UserCopy.Walkaddr` | kernel/vm.c:109-126 | the physical page exactly if users may access it |
| `UserCopy.Copyin` | kernel/vm.c:377-396 | the bytes of flat memory; fails exactly if one is out of reach |
| `UserCopy.Copyinstr` | kernel/vm.c:403-439 | the string there, NUL included; fails exactly if there is none within the limit |
| `UserCopy.StringIffNul` | kernel/vm.c:403-439 | where the bytes are mapped, there is one exactly if a NUL lies among them |
| `UserCopy.Copyout` | kernel/vm.c:352-371 | exactly the range is written, and reads back; fails exactly if a byte is out of reach |
| `UserCopy.WroteElsewhere` | kernel/vm.c:352-371 | every other byte, of any space, is as before |
| `UserCopy.ReadsSame` | kernel/vm.c:352-396 | copyin after copyout returns the same bytes |
| `AddressSpaces.Freewalk` | kernel/vm.c:272-287 | frees exactly the tables of the subtree; no leaf is met |
| `AddressSpaces.Uvmfree` | kernel/vm.c:292-297 | the space is gone, its pages and tables free, nothing else changed |
| `AddressSpaces.Uvmcreate` | kernel/vm.c:197-205 | an empty space made of one free page; none exactly if no page is free |
| `AddressSpaces.ProcPagetable` | kernel/proc.c:196-225 | a space with the two top pages only; fails exactly with fewer than three free pages, and then everything is as before |
| `AddressSpaces.ProcFreePagetable` | kernel/proc.c:230-235 | the space is gone with its own pages, not the trapframe or the trampoline |
| `Exec.LoadSeg` | kernel/exec.c:176-194 | the segment's bytes are in memory; fails exactly on a short file; its panic cannot happen |
| `Exec.LoadAll` | kernel/exec.c:54-72 | sz is at every exit the size of what is mapped; in the end memory is the image the headers describe, byte for byte, and each page that a segment adds is V, R and U, X exactly if bit 0 of its flags is set and W exactly if bit 1 is; fails exactly if a header is not acceptable or the memory does not suffice |
| `Exec.Uvmclear` | kernel/vm.c:338-346 | users lose access to that page only |
| `Exec.AddStack` | kernel/exec.c:83-91 | two pages more, the upper one readable and writable, the lower one closed to users; the image and its permissions stay; fails exactly if the memory does not suffice |
| `Exec.SetStack` | kernel/exec.c:94-119 | the strings and the array of pointers on the stack; fails exactly if they do not fit into its page |
| `Exec.ProgramFindsArguments` | kernel/exec.c:94-119 | entry i of the array at the stack pointer points to argument i as a C string, and the last one is null |
| `Exec.Exec` | kernel/exec.c:23-169 | the new image, with segments, their permissions and the arguments in place, replaces the old one, whose pages are free; epc, sp and a1 are set and argc returned; fails exactly if a header is not acceptable, the arguments do not fit or there are not enough free pages, and then everything is as before |
| `Wakeup.NextInv` | kernel/proc.c:592-645 | whoever is on the way to sleep although the condition holds has a waker coming that has not passed it; whoever a scan has passed is awake |
| `Wakeup.NoLostWakeup` | kernel/proc.c:592-645 | in every run, with the lock free and no waker on its way, no thread sleeps while its condition holds |
| `Wakeup.NobodySleeps` | kernel/proc.c:592-645 | if the condition changes only under the lock, the lock being free is enough |
| `Wakeup.LostExactly` | kernel/proc.c:592-645 | in every run of every client a wakeup is lost exactly if a change that no wakeup goes with made the condition true while the thread slept, and nothing has happened to it since |
| `Wakeup.ReleaseLoses` | kernel/proc.c:592-645 | giving up the lock after a change leaves a sleeper lost exactly if no wakeup goes with the change |
| `WakeupClients.SleepLocksOblige` | kernel/sleeplock.c:22-41 | whoever makes a sleep lock free calls wakeup, under its spinlock |
| `WakeupClients.LogOpsOblige` | kernel/log.c:127-175 | whoever makes room for an operation, or ends a commit, calls wakeup under the log's lock |
| `WakeupClients.SleepLockWaiters` | kernel/sleeplock.c:22-41 | nobody sleeps on a free sleep lock |
| `WakeupClients.LogWaiters` | kernel/log.c:127-175 | nobody sleeps in begin_op while an operation could begin |
| `WakeupClients.DescriptorWaiters` | kernel/virtio_disk.c:170-232 | nobody sleeps for descriptors while three are free |
| `WakeupClients.ParentWaits` | kernel/proc.c:347-488 | nobody sleeps in wait while it has a zombie child, though exit calls wakeup before it becomes one |
| `WakeupClients.PipeWriterWaits` | kernel/pipe.c:59-130 | no writer sleeps while the pipe has room or has lost its readers |
| `WakeupClients.KilledWriter` | kernel/pipe.c:83-101 | a run in which a writer killed after adding a byte leaves a reader asleep on a pipe that is not empty |
| `WakeupClients.PipeReaderLost` | kernel/pipe.c:77-130 | in every run a reader is lost exactly if a writer was killed after adding bytes to the empty pipe it slept on, and nobody has woken it since |
| `WakeupClients.SectionLosesReader` | kernel/pipe.c:83-103 | a section that finds the pipe empty and a reader asleep leaves it lost exactly if it is that of a killed writer that has added bytes |
| `WakeupClients.JoinWaiter` | kernel/kthread.c:165-221 | a joiner sleeps on a zombie only while the exiting thread has yet to take p->lock |
| `ExitWait.NextInv` | kernel/proc.c:303-488 | every step of fork, exit, wait and the scheduler keeps slots, locks, families and pids consistent |
| `ExitWait.ReapedOnce` | kernel/proc.c:444-488 | no process is reaped twice |
| `ExitWait.ReapedStatus` | kernel/proc.c:444-488 | wait returns the status passed to exit |
| `ExitWait.ReapedByParent` | kernel/proc.c:169-191 | a process is freed by its parent, after it has switched away and its t_lock was dropped |
| `ExitWait.KeptUntilReaped` | kernel/proc.c:169-191 | between any two points of a run a process still has its slot and its memory exactly if it has not been reaped, and a zombie stays one |
| `ExitWait.EveryoneAccounted` | kernel/proc.c:100-191 | every process ever created sits in exactly one slot, with its memory, or has been reaped exactly once and sits in none |
| `ExitWait.GivesUp` | kernel/proc.c:455-486 | at the end of its scan wait returns -1 exactly if the process has no child or has been killed, and otherwise sleeps |
| `ExitWait.ParentCanWait` | kernel/proc.c:366-376 | the parent of a started process has not exited |
| `ExitWait.OrphansHaveInit` | kernel/proc.c:366-376 | between any two points of a run a process keeps its parent, the same process, until that one exits or its exit has come past the child; from then on its parent is init |
| `VirtioQueue.AvailRoom` | kernel/virtio_disk.c:270-276 | the avail ring never overwrites an entry the device has not taken |
| `VirtioQueue.UsedRoom` | kernel/virtio_disk.c:295-327 | the used ring has room for every completion |
| `VirtioQueue.Wraparound` | kernel/virtio_disk.c:268-327 | 16-bit indices are as good as unbounded ones, as NUM divides 65536 |
| `VirtioDisk.Disk.AllocDesc` | kernel/virtio_disk.c:157-166 | a free descriptor, or -1 exactly if there is none |
| `VirtioDisk.Disk.FreeDesc` | kernel/virtio_disk.c:170-182 | cleared and free; its panics cannot happen |
| `VirtioDisk.Disk.FreeChain` | kernel/virtio_disk.c:186-197 | exactly the three descriptors of the chain become free |
| `VirtioDisk.Disk.Alloc3Desc` | kernel/virtio_disk.c:201-213 | three descriptors, or none taken and fewer than three free |
| `VirtioDisk.Disk.Begin` | kernel/virtio_disk.c:216-282 | a new request for the two sectors of the block, with its own chain of 16, 1024 and 1 bytes, whatever the device does meanwhile, or nothing changed |
| `VirtioDisk.Disk.Send` | kernel/bio.c:107-112 | a change of a buffer and its write: the request posted carries all 1024 new bytes, whatever the device does meanwhile |
| `VirtioDisk.Disk.Finish` | kernel/virtio_disk.c:284-292 | the chain of a completed request becomes free |
| `VirtioDisk.Disk.Intr` | kernel/virtio_disk.c:295-327 | every completion is seen, those that arrive during the loop too, each clears and wakes its own buffer; the status panic cannot happen |
| `VirtioDisk.Disk.DeviceTake` | kernel/virtio_disk.c:268-282 | the device gets the heads in the order posted |
| `VirtioDisk.Disk.DeviceComplete` | kernel/virtio_disk.c:238-266 | the descriptors still describe the request that was posted, and its buffer still holds what was sent; as many bytes as the data descriptor says move, which is the whole block, to or from its two sectors |
| `VirtioDisk.Disk.DeviceRuns` | kernel/virtio_disk.c:268-282 | any number of device steps leaves chains being set up, and buffers without a request, alone |
| `VirtioDisk.Disk.WokenOnce` | kernel/virtio_disk.c:295-327 | a request is woken for exactly if its completion has been seen, and then once, for its buffer, after its transfer |
| `VirtioDisk.Disk.WokenAfterTransfer` | kernel/virtio_disk.c:295-327 | every wakeup is for a request that has been transferred |
| `VirtioDisk.Disk.DataArrives` | kernel/virtio_disk.c:216-292 | a read returns the 1024 bytes that the writes completed before it have made of the block; a write has stored what the buffer held when it was posted |
| `VirtioDisk.Disk.DiskHolds` | kernel/virtio_disk.c:216-327 | every block, both sectors, is what the writes have made of it, in order of completion |
| `VirtioDisk.StoresBlock` | kernel/virtio_disk.c:216-222 | a block stored from sector 2n on fills two sectors and changes no other block |
| `VirtioDisk.Disk.TablePartitioned` | kernel/virtio_disk.c:157-213 | free, held and chained descriptors partition the table |
| `FreeList.InsertTiled` | user/umalloc.c:25-44 | putting a live block into its gap keeps list and tiling |
| `FreeList.MergeTiled` | user/umalloc.c:33-42 | merging touching blocks keeps them too |
| `FreeList.FreeTiled` | user/umalloc.c:25-44 | after free no two free blocks touch |
| `FreeList.OneBlockPerUnit` | user/umalloc.c:25-90 | every unit got from sbrk lies in exactly one free or live block |
| `Umalloc.Heap.Free` | user/umalloc.c:25-44 | the block is free, live blocks keep their places and sizes, the list stays circular, ordered and coalesced |
| `Umalloc.Heap.MoreCore` | user/umalloc.c:47-61 | one sbrk call for at least 4096 units; 0 exactly if the break would pass its limit; otherwise exactly that memory joins the free list, and the request now fits |
| `Umalloc.Heap.FirstFit` | user/umalloc.c:74-89 | the first block after freep that is large enough, or none exactly if no block is |
| `Umalloc.Heap.Malloc` | user/umalloc.c:64-90 | a block of the right size, apart from every live one, with at most one sbrk call, none if something fits; 0 exactly if nothing fits and the break cannot move; the heap is exactly what sbrk has handed out |
| `Grep.MatchHere` | user/grep.c:84-95 | true exactly if the pattern denotes a piece at the beginning of the text |
| `Grep.MatchStar` | user/grep.c:98-105 | true exactly if some run of the character is followed by the rest |
| `Grep.Match` | user/grep.c:72-81 | true exactly if the meaning of the pattern accepts some position |
| `Pipe.Pipe.Contents` | kernel/pipe.c:13-20 | bytes written are the bytes read followed by at most PIPESIZE in the ring |
| `Pipe.Pipe.FullWhen` | kernel/pipe.c:88-89 | 32-bit counters tell full and empty, wrapped around or not |
| `Pipe.Pipe.Write` | kernel/pipe.c:77-103 | appends bytes in order; sleeps exactly when the ring is full; a kill is seen before any byte, and the bytes added before it stay |
| `Pipe.Pipe.Read` | kernel/pipe.c:106-130 | takes bytes from the front; sleeps exactly when empty with a writer left; loses at most the byte that cannot be copied out |
| `Pipe.Pipe.Close` | kernel/pipe.c:59-74 | closes one side; last exactly if both are closed |
| `Pipe.FreedOnce` | kernel/file.c:48-83 | in every run the page is freed once, when no end has a reference |
| `Pipe.FreedUnderReader` | kernel/sysfile.c:69-81 | a run in which a sibling closes both descriptors and a sleeping reader then touches the freed page |
| `Pipe.FreedUnderOperation` | kernel/sysfile.c:69-110 | in every run, others can free the page under an operation exactly if the last reference to its end has gone |
| `Pipe.TouchesThePage` | kernel/file.c:60-83 | if nobody drops the last reference to an end with an operation in flight, no operation touches a freed page |
| `ShellParser.Parser.GetToken` | user/sh.c:267-309 | the token the grammar says, with the cursor behind it |
| `ShellParser.Parser.Peek` | user/sh.c:312-321 | whether the next character is one of these |
| `ShellParser.Parser.ParseWhole` | user/sh.c:329-341 | the whole text parsed, leftovers refused; ends on every input |
| `ShellParser.Parser.ParseLine` | user/sh.c:346-360 | what the grammar says |
| `ShellParser.Parser.ParsePipe` | user/sh.c:363-373 | what the grammar says |
| `ShellParser.Parser.ParseRedirs` | user/sh.c:376-398 | redirections wrapped around the command in order |
| `ShellParser.Parser.ParseBlock` | user/sh.c:401-414 | what the grammar says |
| `ShellParser.Parser.ParseExec` | user/sh.c:417-447 | what the grammar says, which `ShellSyntax.Accepts` shows to be the syntax people write |
| `ShellSyntax.Accepts` | user/sh.c:267-447 | a text is accepted exactly if its tokens are those of a line (pipelines with any number of `&`, joined by `;`; commands joined by a bar; words and redirections in any order, or a line in parentheses), and then as the line means: the words of each command in order, at most nine, inside all its redirections, the first innermost, with the modes and descriptors of `<`, `>` and `>>` |
| `ShellRoundtrip.Typed` | user/sh.c:267-447 | a line written out with any white space, also none where two tokens stay apart without it, parses to what it means |
| `ShellRoundtrip.RoundTrip` | user/sh.c:267-447 | every command with the three kinds of redirection is what its print, with all parentheses and any white space, parses to |
| `ShellWords.LineWords` | user/sh.c:346-447 | every word of a parsed command is a maximal run of word characters, and no simple command has more than 9, so that the null pointer behind them stays in the array |
| `ShellWords.NulTerminate` | user/sh.c:451-494 | writes a NUL at the end of every word and nowhere else |
| `ShellWords.WordsReadBack` | user/sh.c:451-494 | each word then reads back as it stood in the line |
| `ShellCommand.ParseCmd` | user/sh.c:329-343 | succeeds exactly if the buffer holds a line of the syntax, and then the command, its words read from the buffer as C strings, is what the line means |

## Left out

- Sibling threads in exit and exec, and timer preemption of secondary threads: the lifetime theorems are about single-threaded processes.
- Slot reuse while a thread is between kthread_exit's wakeup and its last switch: the join theorem assumes one joiner and no new thread in that slot.
- fork's failure path after uvmcopy, which calls freeproc while holding a t_lock; uvmcopy's own cleanup is proved instead.
- Fs.FileSystem.Writei: bytes that a failed copy leaves in a buffer are part of the contents from then on; that recycling the buffer before it is logged takes them away again is part of the step system, not of this method.
- Directories, path names, ialloc, iget, iput and link counts.
- Log.Log.Transaction: one call at a time, of blocks that nobody else has locked; calls that interleave are part of the step system.
- Log.Log.LogWrite: the buffer is locked by its caller; which callers log their changes before they release a buffer is part of the step system, not of this method.
- Bitmap updates are written as addition and subtraction of a bit known to be clear or set; blocks of the bitmap are looked at as bytes.
- Exec.Exec: the ELF header is a parameter (program headers with their file contents), and so are the arguments, of which sys_exec passes fewer than MAXARG, each shorter than a page; of the trapframe only epc, sp and a1 are modelled, and the name of the process is not.
- UserMemory.Uvmdealloc: a new size at or above the trapframe, where the trapframe page itself would be unmapped.
- Pipe.FreedUnderOperation: the file structure itself, which another open can take over while the operation is in flight.
- Device memory barriers, interrupt acknowledgement and device initialisation.
- Umalloc.Heap.Malloc: requests whose byte size does not fit sbrk's int argument, and an sbrk that shrinks the break.
- grep's line splitting and buffer handling; only its matcher is modelled.
- Running the parsed shell commands, and allocation failure inside the shell's parser.
- user/uthread.c, assembly, boot, PLIC, UART, console, printf, system call arguments.
