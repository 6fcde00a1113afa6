# A verified model of dzOS

This project models the hard core of dzOS, a small x86-64 kernel with its own file
system, allocators, page tables, scheduler and C library heap, and proves properties of
it that hold for every input, every run and every interleaving.  `dafny verify
dfyconfig.toml` checks it.

| files | what they model |
|---|---|
| `DzBits`, `DzDisk`, `DzState`, `DzWrite`, `DzContent`, `DzFolder`, `DzFormat`, `DzPath`, `DzFs` | dzFS: free bitmap, direct and indirect blocks, directories, path walking (`kernel/src/fs/dzfs.c`) |
| `LibcHeap` | the Kernighan and Ritchie heap (`libc/src/malloc.c`) |
| `PageTables`, `Loader`, `Rounding` | four-level page tables, their deep copy, and the loading of ELF segments through them (`kernel/src/mem/vmm.c`, `kernel/src/userspace/exec.c`) |
| `Scheduler` | eight intrusive queues, counters, selection by virtual run time (`kernel/src/userspace/scheduler.c`) |
| `PageAllocator` | bump regions and a LIFO list of free frames (`kernel/src/mem/mem.c`) |
| `InodeTable` | reference-counted inodes under two levels of locks (`kernel/src/fs/fs.c`) |
| `Spinlock` | test-and-set locks with nested interrupt state (`kernel/src/common/spinlock.c`) |
| `Prelude` | an option type, number ranges and the count of a set, shared by the others |
| `NvmeQueue` | the submission and completion ring with phase tag (`kernel/src/drivers/drv_nvme.c`) |

Code that changes state in place is a class whose methods do what the C functions do;
its invariant is `Valid()` and ghost fields hold the abstract state.  The concurrent
parts are state machines whose steps are the single memory accesses of the code, and
the theorems are about every reachable state.  Exclusive ownership is always expressed
by a function (block to role, unit to block, frame to page, table to parent slot), so
that "no two owners" needs no pairwise reasoning.

## What the main results say

- **dzFS.** `Fs.Inv` gives every block one role (metadata, dnode, indirect block of a
  file, data block i of a file) or marks it free.  `FileSystem.Run` is about every
  sequence of opens, writes, reads and deletes of a client that uses the dnodes it was
  given: the invariant holds, every entity has its one path from the root, and every file
  created and only appended to is exactly the bytes appended, which is what its reads
  return.  A write succeeds exactly if the blocks it lacks are free.  Creating, appending
  to and deleting a file restores the bitmap and the folder, except for the indirect
  block `dzfs_delete` forgets.  What an open returns is determined for every path: `..`
  is the parent, at the root the root, and `../x` is `x` from there.
- **Heap.** Free and live blocks tile the memory obtained from `sbrk`; the ring is sorted
  and coalesced; `malloc` ends and asks `sbrk` at most once, exactly when nothing fits.
- **Page tables.** Tables form trees in which distinct pages use distinct entries;
  mapping changes the flat map exactly where asked; a deep copy translates every page as
  its source does, shares no table with it, and succeeds exactly if the free frames are as
  many as the tables of the source.
- **Loader.** After the program headers are processed, the memory a process sees holds
  every segment, file bytes and then zeros, writable and executable exactly as its header
  says; nothing that was mapped before has changed.
- **Scheduler.** Over every run the lists, sizes and totals are exact and every runnable
  process is in exactly the bucket it names; processes of the best bucket stay within
  one slice of each other and none of them starves.  The priority is exact in terms of
  the static one, the flags and the nice value.
- **Allocator, inodes, locks, ring.** Free, uncarved and handed-out frames partition
  memory; one inode per dnode, with a count equal to the handles, no deadlock, and NULL
  from `fs_open` only when it has seen the table full; mutual exclusion and interrupt
  state; every wait ends on its own completion.

## Where the code differs from what it says

- `dzfs.h` promises DZFS_ERR_EXISTS for DZFS_O_CREATE on an existing entity; the code
  returns the entity and DZFS_OK (kernel/src/fs/dzfs.c:479-484), and so does the model.
- `dzfs_write` adds the length to the size whatever the offset, and does not read the
  first block before overwriting part of it when the offset is 0.  The size is right if
  and only if the write is an append or empty (`SizeAfterWrite`).  A short write at offset
  0 makes the rest of the first block zeros (`RestOfFirstBlock`); the bytes outside the
  range survive if and only if the write does not start at 0, or is empty, or the file had
  no first block, or the rest of that block was zeros already (`RestSurvives`).  A caller
  is safe with an offset above 0 or at least a block of data.
- `dzfs_write` takes blocks from the bitmap as it goes and writes the pointers last.  When
  the disk gets full in between, the file is as it was (`FailedAppend`), but every block
  that was free is lost: no longer free and in no file (`BlocksLost`).  That happens if and
  only if the missing data blocks, and the indirect block if one is needed, are more than
  the free blocks (`Write`).
- `dzfs_delete` does not free the indirect block, nor data blocks past a gap in the
  pointers: it gives back all blocks of a file if and only if there is no indirect block
  and no gap among the direct blocks (`DeleteGivesAll`).  Gaps arise from overwrites at
  offset 0, which inflate the size, followed by a write at that size (`GapArises`).
- `dzfs_new` clears the tail of the bitmap with indexes that are too large when there is
  more than one bitmap block; the result is right if and only if the disk has at most
  32768 blocks or a multiple of that (`LimitExact`, `New`).
- `kfree_pages` relies on the pages being contiguous in memory.  On the free list they are
  in descending order, and the search of `kalloc_pages` wants them ascending, so it does
  not find a block that was just freed (`FreedNotReused`).
- PAGE_SIZE is unsigned 32-bit, so the rounding macros clear the upper half of an address.
  They are exact if and only if the address is below 4 GiB (`RoundDownExact`,
  `RoundUpExact`).
- `this_cpu_holding_lock` takes 0 both for CPU 0 and for "released": CPU 0 can panic with
  "deadlock" on a lock it does not hold (`CpuZeroFalseDeadlock`); `HoldingExact` says
  exactly when the answer is right.
- `sched_set_priority` and `sched_nice` change the priority before they dequeue, so
  total_weight drifts if and only if the process was queued with another weight.
- `sched_sleep` dequeues the process although the one that calls it, through
  `condvar_wait`, is running and in no queue.  `sched_dequeue` then empties the bucket the
  process was in last and wraps or spoils its counters.  The queues are in order
  afterwards if and only if the process was queued, which `in_runqueue` tells (`Sleep`,
  `DispatchThenWait`).
- A process counts as interactive only from 1.51 times its run time asleep on, where the
  comment says more than 1.5: the ratio is rounded down first (`FlagsExact`).
- `copy_pagetable` says it propagates the lack of memory, but it gives back only the table
  it is filling on each level: when it fails, at most two of the frames that were free are
  left (`LeftIs`, `NewSpace`).
- The loader cannot zero the rest of a segment on pages that are not writable, so it
  refuses such segments (`LoadHeader`).

## Model

| member | source | states |
|---|---|---|
| `DzBits.SetBit` | kernel/src/fs/dzfs.c:48-54 | exactly bit k is on in addition |
| `DzBits.ClearBit` | kernel/src/fs/dzfs.c:61-67 | exactly bit k is off in addition |
| `DzBits.Ctz` | kernel/src/fs/dzfs.c:86 | the index of the lowest bit that is on |
| `DzBits.Popcount` | kernel/src/fs/dzfs.c:227-236 | the a &= a - 1 loop counts the bits that are on |
| `DzFs.FileSystem.WriteBit` | kernel/src/fs/dzfs.c:96-104 | the bitmap on disk changes by exactly one block of the free set |
| `DzFs.FileSystem.FindFree` | kernel/src/fs/dzfs.c:77-91 | the least free block, or 0 iff none is free |
| `DzFs.FileSystem.BlockAlloc` | kernel/src/fs/dzfs.c:74-109 | returns the least free block or 0 iff none is free; the free set loses exactly it; only bitmap blocks are written |
| `DzFs.FileSystem.BlockFree` | kernel/src/fs/dzfs.c:133-143 | the free set gains exactly the block, so it undoes BlockAlloc |
| `DzFs.FileSystem.FreeBlocks` | kernel/src/fs/dzfs.c:803-814 | the result is the size of the free set |
| `DzFormat.LimitExact` | kernel/src/fs/dzfs.c:276-303 | the tail of the bitmap is right iff the disk has at most 32768 blocks or a multiple of 32768 |
| `DzFormat.SecondTest` | kernel/src/fs/dzfs.c:268-281 | the second size check never fails after the first |
| `DzFormat.ClearFirst` | kernel/src/fs/dzfs.c:292-293 | exactly the bits of the first blocks are cleared |
| `DzFormat.ClearTail` | kernel/src/fs/dzfs.c:299-302 | exactly the bits of the indexes given are cleared, those out of range not at all |
| `DzFormat.FormatSynced` | kernel/src/fs/dzfs.c:284-303 | the bitmap blocks written stand for the blocks from the root folder on, up to the limit |
| `DzFs.FileSystem.New` | kernel/src/fs/dzfs.c:248-319 | too small iff at most 4 blocks; else superblock, root folder and free set are as they should be, and the invariant holds iff the disk has at most 32768 blocks or a multiple of that |
| `DzFs.FileSystem.WriteBitmaps` | kernel/src/fs/dzfs.c:284-303 | every bitmap block has the bits dzfs_new gives it, and nothing else is written |
| `DzFs.FileSystem.Init` | kernel/src/fs/dzfs.c:321-343 | the layout is recovered iff the magic matches |
| `DzState.NoSharedBlock` | kernel/src/fs/dzfs.c:74-143 | in every valid state a data or indirect block belongs to one place of one file, is not free, is no dnode and no metadata |
| `DzFs.FileSystem.Run` | kernel/src/fs/dzfs.c:358-707 | over every sequence of opens from any known folder, writes, reads and deletes of dnodes an open gave, with the parents it gave: the ownership invariant holds, every entity has a path from the root, known dnodes stay usable, every file created and only appended to holds exactly the bytes appended, reads of it return exactly the part asked for, and every answer in the history is the one its call calls for |
| `DzFs.FileSystem.Serve` | kernel/src/fs/dzfs.c:345-707 | one call of a client: it is refused exactly for an unknown dnode, a path there is no room for or a read past the pointers; else it has the effect and the status of the operation; what the client can then say about the disk from calls and answers alone is true |
| `DzFs.OpenServes` | kernel/src/fs/dzfs.c:345-502 | an open adds at most one entity, empty, and changes no file |
| `DzFs.WriteServes` | kernel/src/fs/dzfs.c:504-580 | an append adds its bytes or, if it fails, nothing; no other file changes |
| `DzFs.DeleteServes` | kernel/src/fs/dzfs.c:655-707 | a deletion takes exactly its entity away |
| `DzState.TakeKeeps` | kernel/src/fs/dzfs.c:118-127 | giving a free block to a file keeps the ownership invariant and touches no other entity |
| `DzFs.FileSystem.GetOrAllocate` | kernel/src/fs/dzfs.c:118-127 | the block at an index, allocated if there was none; no other file is touched; fails iff the disk is full |
| `DzFs.FileSystem.NeedIndirect` | kernel/src/fs/dzfs.c:535-543 | an indirect block is allocated, zeroed, exactly when an index needs it |
| `DzFs.FileSystem.GrowMap` | kernel/src/fs/dzfs.c:531-557 | after it the index has a block; all other pointers are as they were; the new blocks came from the free set |
| `DzWrite.CopyStep` | kernel/src/fs/dzfs.c:531-568 | one turn of the copy loop keeps the invariant of the loop: bytes up to the offset are the data, all others are unchanged |
| `DzFs.FileSystem.PutChunk` | kernel/src/fs/dzfs.c:558-567 | the block written holds the chunk over zeros at offset 0 and over its old bytes elsewhere |
| `DzWrite.CommitKeeps` | kernel/src/fs/dzfs.c:569-573 | the last writes keep the ownership invariant and touch no other entity |
| `DzWrite.WroteAll` | kernel/src/fs/dzfs.c:504-580 | the finished loop and the last writes are a write |
| `DzFs.FileSystem.Write` | kernel/src/fs/dzfs.c:504-580 | the error for a folder, for a file that would be too large, for an offset past the end; else success iff the blocks missing for the range, with the indirect block if needed, are at most the free ones; on success the range holds the data, the free set shrinks by exactly those blocks and no other entity changes; on a full disk no block is free and the file has its old pointers |
| `DzFs.FileSystem.CopyAll` | kernel/src/fs/dzfs.c:529-568 | the copy loop: all of the data in place, or the disk full, with the exact count of blocks |
| `DzWrite.NeedStep` | kernel/src/fs/dzfs.c:531-568 | a turn of the loop allocates exactly what it takes off the blocks still missing |
| `DzWrite.Stopped` | kernel/src/fs/dzfs.c:537-556 | when an allocation fails the pointers on disk are the old ones, and the bytes too, except those already written in place |
| `DzWrite.BlocksLost` | kernel/src/fs/dzfs.c:537-556 | after that every block that was free is neither free nor in any file |
| `DzContent.AppendContent` | kernel/src/fs/dzfs.c:504-580 | a write at offset == size turns the content into old ++ data, across direct and indirect blocks |
| `DzContent.OtherContent` | kernel/src/fs/dzfs.c:504-580 | the content of every other file is unchanged |
| `DzContent.WrittenBytes` | kernel/src/fs/dzfs.c:504-580 | for any offset, the bytes just written are in the file |
| `DzContent.SizeAfterWrite` | kernel/src/fs/dzfs.c:572 | the size is the larger of old size and end of the write iff the write is an append or empty |
| `DzContent.RestOfFirstBlock` | kernel/src/fs/dzfs.c:559-564 | a short write at offset 0 zeroes the rest of the first block |
| `DzContent.RestSurvives` | kernel/src/fs/dzfs.c:558-564 | the bytes outside the range are unchanged iff the write does not start at 0, or is empty, or there was no first block, or the rest of it was zeros; an offset above 0 or a whole block suffices |
| `DzContent.FailedAppend` | kernel/src/fs/dzfs.c:537-580 | an append that fails for lack of space leaves the content as it was |
| `DzFs.FileSystem.Read` | kernel/src/fs/dzfs.c:582-625 | returns exactly content[off..min(off + n, size)]; an error for a folder |
| `DzFs.FileSystem.WriteThenRead` | kernel/src/fs/dzfs.c:504-625 | for any offset <= size the bytes just written read back |
| `DzFs.FileSystem.Append` | kernel/src/fs/dzfs.c:504-580 | the exact status; on success content becomes old ++ data, only this file changes and its new blocks leave the free set; on failure the content is as it was and no other entity changes |
| `DzFs.FileSystem.AppendAll` | kernel/src/fs/dzfs.c:504-580 | any number of appends is one append of the concatenation |
| `DzFolder.RemoveAtEffect` | kernel/src/fs/dzfs.c:197-219 | the entries in use stay packed; the last one takes the place of the removed one |
| `DzFolder.AddRemove` | kernel/src/fs/dzfs.c:197-219 | removing the entry that was added last restores the array exactly |
| `DzFs.FolderRemove` | kernel/src/fs/dzfs.c:197-219 | found iff listed; then the array is the one with that entry removed |
| `DzFs.FileSystem.FreeRun` | kernel/src/fs/dzfs.c:669-674 | the free set gains exactly the blocks listed before the first zero |
| `DzFs.FileSystem.FreeData` | kernel/src/fs/dzfs.c:664-675 | the free set gains the data blocks listed in the dnode and in the indirect block, not the indirect block itself |
| `DzFs.FileSystem.IsEmpty` | kernel/src/fs/dzfs.c:678-682 | a folder counts as empty iff it has no entries |
| `DzFs.FileSystem.Unlist` | kernel/src/fs/dzfs.c:688-701 | the entry leaves the parent and the dnode becomes free |
| `DzFs.FileSystem.Delete` | kernel/src/fs/dzfs.c:655-707 | refuses the root and folders with entries, changing nothing; else exactly the entity, its entry and its blocks are gone |
| `DzPath.RemovedReach` | kernel/src/fs/dzfs.c:655-707 | after a deletion exactly the paths to the entity lead nowhere; every other path leads where it led, although the folder was reordered |
| `DzPath.RemovedFromParent` | kernel/src/fs/dzfs.c:197-219 | the folder has lost that name and no other |
| `DzFs.DeleteGivesAll` | kernel/src/fs/dzfs.c:664-675 | all blocks of a file are given back iff it has no indirect block and no gap among its direct blocks |
| `DzFs.PastGapLost` | kernel/src/fs/dzfs.c:673-674 | a direct block past a gap is not given back |
| `DzFs.GapArises` | kernel/src/fs/dzfs.c:504-580 | two overwrites of one block at 0 and a write at the size leave a gap |
| `DzFolder.RemovedKeeps` | kernel/src/fs/dzfs.c:655-707 | a deletion keeps the ownership invariant |
| `DzFolder.CreatedKeeps` | kernel/src/fs/dzfs.c:438-470 | a creation keeps the ownership invariant |
| `DzFs.FileSystem.CreateAppendDelete` | kernel/src/fs/dzfs.c:438-707 | create, append any pieces, delete: before the deletion the content is the concatenation; afterwards the folder is restored exactly, and the free set too, up to 956 blocks; beyond that exactly the indirect block of the file stays used |
| `DzFs.GivenAll` | kernel/src/fs/dzfs.c:664-675 | deletion of an appended file finds all its data blocks |
| `DzFs.Restored` | kernel/src/fs/dzfs.c:655-707 | what creation and appending took is what deletion gives back |
| `DzPath.PartLen` | kernel/src/fs/dzfs.c:21-26 | the length up to the first slash or the end |
| `DzPath.LastPartParts` | kernel/src/fs/dzfs.c:35-41 | the test for the last part is right, and skipping a part leaves the other parts |
| `DzPath.ClimbFolder` | kernel/src/fs/dzfs.c:374-406 | going up always ends at a folder |
| `DzPath.FindAt` | kernel/src/fs/dzfs.c:423-436 | the search returns the first entry with the name |
| `DzPath.FindNone` | kernel/src/fs/dzfs.c:423-436 | it returns 0 if no entry has the name |
| `DzPath.OnePath` | kernel/src/fs/dzfs.c:416-496 | two absolute paths that lead to the same entity are the same |
| `DzPath.CreatedReach` | kernel/src/fs/dzfs.c:416-496 | after a creation exactly the new path leads to the new entity; every other path leads where it led |
| `DzPath.CreatedRooted` | kernel/src/fs/dzfs.c:438-470 | a creation keeps every entity reachable from the root |
| `DzPath.OnlyRooted` | kernel/src/fs/dzfs.c:504-580 | so does a write, |
| `DzPath.RemovedRooted` | kernel/src/fs/dzfs.c:655-707 | and a deletion |
| `DzFs.FileSystem.FindName` | kernel/src/fs/dzfs.c:423-436 | the loop computes the search |
| `DzFs.FileSystem.LookUp` | kernel/src/fs/dzfs.c:423-436 | the child with the name, or 0 iff the folder has none |
| `DzFs.FileSystem.StripDots` | kernel/src/fs/dzfs.c:373-406 | the loop over ./ and ../ ends at the folder those steps lead to, with the rest of the path; what one step is, StepUp, StepHere and NoStep say |
| `DzPath.StepUp` | kernel/src/fs/dzfs.c:381-403 | ../ before a path leads to where the path leads from the parent folder, at the root from the root itself; .. alone leads to the parent |
| `DzPath.StepHere` | kernel/src/fs/dzfs.c:376-380 | ./ before a path changes neither the folder nor the rest |
| `DzFs.FileSystem.Create` | kernel/src/fs/dzfs.c:438-470 | full folder, full disk, or a new empty entity at the least free block, listed last in its parent |
| `DzFs.FileSystem.Descend` | kernel/src/fs/dzfs.c:416-496 | the descent ends, and its result is the entity the parts lead to, a new one, or the error |
| `DzFs.FileSystem.Open` | kernel/src/fs/dzfs.c:345-502 | the whole of open: absolute and relative paths, dots, lookup, creation and every error; OpenUp, OpenUpRoot, OpenFrom and OpenThere say what that means for every path |
| `DzFs.OpenUp` | kernel/src/fs/dzfs.c:381-414 | from a folder c called n in folder d, opening .. gives d with its parent, and opening ../x does and returns what opening x from d does, for all x that are not absolute |
| `DzFs.OpenUpRoot` | kernel/src/fs/dzfs.c:381-414 | at the root .. is the root, and ../x is x |
| `DzFs.OpenFrom` | kernel/src/fs/dzfs.c:345-356 | ./x is x, and /x from any folder is x from the root |
| `DzFs.OpenThere` | kernel/src/fs/dzfs.c:407-414 | the empty path and . are the folder itself with its parent, and a path that begins with a name goes down from the folder, component by component |
| `DzFs.OpenCreates` | kernel/src/fs/dzfs.c:345-502 | after a successful open with DZFS_O_CREATE the path leads to that dnode, every other path leads where it led, and sibling names are distinct |
| `DzFs.OpenFails` | kernel/src/fs/dzfs.c:472-492 | a missing part is not found, and nothing changes |
| `DzFs.OpenGives` | kernel/src/fs/dzfs.c:479-484 | the dnode and parent returned are an entity and its parent |
| `LibcHeap.PayloadSuffices` | libc/src/malloc.c:67 | the block has room for the request iff the rounding does not wrap around, and then less than one unit more |
| `LibcHeap.BlocksDisjoint` | libc/src/malloc.c:25-46 | two different blocks share no unit |
| `LibcHeap.FindPlace` | libc/src/malloc.c:32-34 | every block has exactly one place in the address order of the ring |
| `LibcHeap.Released` | libc/src/malloc.c:35-45 | inserting and merging on both sides keeps tiling, order and no two adjacent free blocks |
| `LibcHeap.SplitKeeps` | libc/src/malloc.c:77-79 | cutting the tail off a free block keeps the invariant |
| `LibcHeap.UnlinkKeeps` | libc/src/malloc.c:74-75 | taking a whole block out of the ring keeps the invariant |
| `LibcHeap.GrowKeeps` | libc/src/malloc.c:54-59 | memory from sbrk joins the arena as one live block |
| `LibcHeap.Heap.Search` | libc/src/malloc.c:32-34 | the search loop of free ends, at the place of the block |
| `LibcHeap.Heap.Splice` | libc/src/malloc.c:35-44 | the pointer updates of free |
| `LibcHeap.Heap.Free` | libc/src/malloc.c:25-46 | the block and only the block is no longer live; the invariant, hence coalescing, holds again; freep or its successor has at least the size freed |
| `LibcHeap.Heap.MoreCore` | libc/src/malloc.c:48-61 | NULL iff sbrk fails; else the arena has grown and freep or its successor is big enough |
| `LibcHeap.Heap.Take` | libc/src/malloc.c:73-82 | the block found, or its tail, becomes live with exactly the units asked for |
| `LibcHeap.Heap.Refill` | libc/src/malloc.c:84-86 | morecore is reached only on the first full turn, when nothing fits |
| `LibcHeap.Heap.Allocate` | libc/src/malloc.c:72-88 | the loop ends; sbrk is asked at most once, and iff no free block fits |
| `LibcHeap.Heap.Malloc` | libc/src/malloc.c:63-88 | NULL iff sbrk was asked and failed; else a new live block of the right size, all others unchanged; the arena grows exactly by what sbrk gave |
| `LibcHeap.FullTurn` | libc/src/malloc.c:72-87 | when the loop is back at freep, no free block fits |
| `LibcHeap.Heap.Serve` | libc/src/malloc.c:25-88 | one request of a client: what it holds afterwards, with a new block whenever sbrk would give memory |
| `LibcHeap.Heap.Run` | libc/src/malloc.c:25-88 | over every sequence of malloc and free of held blocks, the blocks held are exactly the live ones, each has the bytes asked for, none overlaps another, and every request was answered |
| `PageTables.NoSharedTable` | kernel/src/mem/vmm.c:102-129 | a table is reached from one root, on one level, for one part of the address space |
| `PageTables.DistinctSlots` | kernel/src/mem/vmm.c:102-129 | distinct pages, of one root or of two, use distinct entries |
| `PageTables.ReachTrace` | kernel/src/mem/vmm.c:107-128 | what the entry walk comes to says about the translation |
| `PageTables.AddForest` | kernel/src/mem/vmm.c:118-124 | adding a level keeps the tables trees |
| `PageTables.AddTrace` | kernel/src/mem/vmm.c:118-124 | adding a level changes no translation, nor the rights of any path |
| `PageTables.LeafTrace` | kernel/src/mem/vmm.c:321-328 | a new last-level entry changes the walks that end in it and no others |
| `PageTables.TraceFrame` | kernel/src/mem/vmm.c:102-129 | a translation depends only on the tables of its own trees |
| `PageTables.AddressSpaces.AddTable` | kernel/src/mem/vmm.c:118-124 | a zeroed table fills a missing entry, or no frame is free and nothing changes |
| `PageTables.AddressSpaces.Walk` | kernel/src/mem/vmm.c:102-129 | panics iff the address is outside the user half; returns the entry of the page; fails iff a level is missing and is not to be or cannot be allocated; every frame taken is one missing level less; no translation changes |
| `PageTables.AddressSpaces.WalkAddr` | kernel/src/mem/vmm.c:276-289 | the frame of a mapped page whose U bit is as asked, else 0 |
| `PageTables.AddressSpaces.MapOne` | kernel/src/mem/vmm.c:313-328 | one page: out of memory iff the tables missing on its way are more than the free frames; else mapped iff it was in range and not mapped |
| `PageTables.AddressSpaces.MapPages` | kernel/src/mem/vmm.c:296-331 | the flat map changes exactly on the pages mapped, to the frames and rights asked for; all of [va, va + size) iff it succeeds; it stops at the first page that is out of range, mapped already, or lacks tables when no frame is free; no other root changes |
| `PageTables.MappedTranslates` | kernel/src/mem/vmm.c:296-331 | as a flat map: each page has its frame with the rights asked for, narrowed by what the inner entries leave; every other page of every root translates as before |
| `PageTables.AddressSpaces.Allocate` | kernel/src/mem/vmm.c:340-381 | the same with frames from the pool, all different, none of them free or a table afterwards; it gives up for memory only with at most one frame left that is not enough for the next page, and then every other frame is a table or belongs to a page before it |
| `PageTables.AddressSpaces.AllocateOne` | kernel/src/mem/vmm.c:351-378 | one page: out of memory iff no frame is free, or it is in range and the free frames are fewer than one and the tables missing on its way; the frame is given back then |
| `PageTables.AddressSpaces.Copy` | kernel/src/mem/vmm.c:191-237 | it succeeds iff the free frames are at least as many as the tables below the source, which entries that are absent or huge do not count for; then the copy is a tree made of exactly the frames taken and translates every page as the source does, huge pages included; the source and all other tables are unchanged, also on failure |
| `PageTables.AddressSpaces.CopyEntry` | kernel/src/mem/vmm.c:203-233 | one entry: it succeeds iff the free frames suffice for what is below it; the copy leads to a copy of the inner table, with the same W, U and XD |
| `PageTables.CopyWhole` | kernel/src/mem/vmm.c:191-237 | when every entry is copied, the copy is a tree and translates as the source does |
| `PageTables.LeftIs` | kernel/src/mem/vmm.c:203-223 | a copy that runs out of memory gives back one table on each level it was on, at most l - 1 for level l; all others it took are lost |
| `PageTables.AddressSpaces.NewSpace` | kernel/src/mem/vmm.c:429-439 | none iff the free frames are fewer than one and the tables below the source, and then at most two frames are left; else a new root with the translations of the source and no table in common with any old one |
| `PageTables.AddressSpaces.CopyThenMap` | kernel/src/mem/vmm.c:429-472 | later mappings in the copy do not show in the source |
| `Rounding.RoundDownExact` | kernel/src/mem/vmm.c:23 | rounding down is exact iff the address is below 4 GiB |
| `Rounding.RoundUpExact` | kernel/src/mem/mem.h:10-13 | rounding up is exact iff the address is at most one page below 4 GiB |
| `Loader.StoreWritten` | kernel/src/mem/vmm.c:628-632 | writing into the frame of a page changes that page and no other |
| `Loader.Machine.CopyTurn` | kernel/src/mem/vmm.c:617-632 | as much as the page holds, iff it is mapped, writable and of the right kind |
| `Loader.Machine.MemCpy` | kernel/src/mem/vmm.c:612-639 | exactly the bytes up to the first address that may not be written are written; success iff that is all |
| `Loader.Machine.Zero` | kernel/src/mem/vmm.c:641-651 | the same with zeros |
| `Loader.Machine.LoadTurn` | kernel/src/userspace/exec.c:92-107 | one page of the segment: the file bytes there are, a panic iff it is not mapped for the user |
| `Loader.Machine.LoadSegment` | kernel/src/userspace/exec.c:80-110 | for any alignment, memory gets the file bytes from the offset on; success iff the file has them all; nothing else changes; the 32-bit offset does not wrap |
| `Loader.Extent` | kernel/src/userspace/exec.c:217-220 | below 4 GiB the pages mapped are those the segment touches |
| `Loader.Machine.Segment` | kernel/src/userspace/exec.c:226-240 | pages with the rights of the flags, file bytes and zeros of one segment, and the exact reasons for failing |
| `Loader.Machine.LoadHeader` | kernel/src/userspace/exec.c:205-243 | a PT_LOAD segment is in memory: filesz bytes of the file, then memsz - filesz zeros, every page open to user mode, writable iff PF_W and executable iff PF_X; it had its own pages; nothing outside them changed; exactly the bad headers are refused (sizes, start, missing bytes, zeros on pages that are not writable); out of memory only with at most one frame left |
| `Loader.Machine.LoadProgram` | kernel/src/userspace/exec.c:205-243 | after the loop every loaded segment is in memory at once with its rights, and what was mapped before is unchanged; refused only for a bad header; no frame is lost, and out of memory means at most one is left |
| `Loader.OwnMore` | kernel/src/mem/vmm.c:351-378 | pages with frames from the pool have them to themselves |
| `Scheduler.ForwardBackward` | kernel/src/userspace/scheduler.c:34-84 | following next gives the bucket, following prev gives its reverse |
| `Scheduler.OneBucket` | kernel/src/userspace/scheduler.c:44-45 | whatever is in a bucket names that bucket |
| `Scheduler.EnqueueKeeps` | kernel/src/userspace/scheduler.c:41-54 | linking at the tail keeps all buckets well linked |
| `Scheduler.DequeueKeeps` | kernel/src/userspace/scheduler.c:67-81 | unlinking keeps all buckets well linked |
| `Scheduler.UpdatePriority` | kernel/src/userspace/scheduler.c:135-163 | only the dynamic priority changes, never that of a real-time process, and into the normal range; by how much, PriorityExact says |
| `Scheduler.PriorityOrder` | kernel/src/userspace/scheduler.c:142-160 | a greater nice value or being CPU-bound never gives a better priority, being interactive never a worse one |
| `Scheduler.PlainPriority` | kernel/src/userspace/scheduler.c:140-162 | without flags and with nice near 0 it is the static priority, kept in range |
| `Scheduler.PriorityExact` | kernel/src/userspace/scheduler.c:140-162 | the priority is the static one, one worse if CPU-bound and else one better if interactive, one worse per full four steps of nice above 0 and one better per full four below, kept in the normal range |
| `Scheduler.NiceSteps` | kernel/src/userspace/scheduler.c:154-160 | four more nice from 0 up are exactly one worse, four less from 0 down exactly one better, as far as the normal range goes |
| `Scheduler.FlagSteps` | kernel/src/userspace/scheduler.c:142-152 | CPU-bound is exactly one worse than neither flag, interactive one better, and both flags are CPU-bound |
| `Scheduler.FlagsExact` | kernel/src/userspace/scheduler.c:121-133 | interactive from a ratio of 1.51 on and CPU-bound below 0.5, in terms of the products; nothing changes in between or before the process has both slept and run |
| `Scheduler.WeightOrder` | kernel/src/userspace/scheduler.h:158-172 | a better priority weighs strictly more, each level by a fifth to three tenths, the last by more than half |
| `Scheduler.ChargeExact` | kernel/src/userspace/scheduler.c:197-204 | the charge is 1024 times the time by the weight, rounded down, and nothing iff 1024 times the time is less than the weight |
| `Scheduler.WokenExact` | kernel/src/userspace/scheduler.c:269-276 | a woken process keeps all but state, list pointers and priority, which is up to date |
| `Scheduler.SettledExact` | kernel/src/userspace/scheduler.c:585-592 | a process that comes back is charged, then its flags and its priority are brought up to date, and nothing else changes |
| `Scheduler.Runqueue.constructor` | kernel/src/userspace/scheduler.c:24 | an empty queue is valid |
| `Scheduler.Runqueue.Enqueue` | kernel/src/userspace/scheduler.c:34-57 | the process is last in the bucket of its priority; counters and total weight follow |
| `Scheduler.Runqueue.Dequeue` | kernel/src/userspace/scheduler.c:59-84 | the process leaves its bucket, the others keep their order; counters and total weight follow |
| `Scheduler.Runqueue.PickNext` | kernel/src/userspace/scheduler.c:86-115 | nothing iff all buckets are empty; else from the best bucket that is not: its head if real-time, else its first with the least vruntime |
| `Scheduler.Runqueue.LeastVruntime` | kernel/src/userspace/scheduler.c:97-110 | the first entry of the bucket with the least vruntime |
| `Scheduler.Runqueue.Fork` | kernel/src/userspace/scheduler.c:214-232 | a fresh entity in no queue: normal priority, nice 0, no flags, the least vruntime |
| `Scheduler.Runqueue.Wakeup` | kernel/src/userspace/scheduler.c:258-279 | a new or sleeping process becomes runnable and queued last in the bucket of its updated priority; any other is left alone |
| `Scheduler.Runqueue.Rebuild` | kernel/src/userspace/scheduler.c:454-462 | exactly the runnable processes of the table that are in no queue join the one of their priority; it does nothing when every runnable process is queued |
| `Scheduler.Runqueue.Reclaim` | kernel/src/userspace/scheduler.c:470-491 | exactly the exited processes of the table are removed; the queues stay as they are |
| `Scheduler.Runqueue.Dispatch` | kernel/src/userspace/scheduler.c:448-537 | nothing iff no process is runnable; else the choice of PickNext leaves its bucket and runs; the rebuild loop and the reclaiming loop find nothing to do |
| `Scheduler.Runqueue.Tick` | kernel/src/userspace/scheduler.c:281-296 | a timer tick charges the running process for the time since the last charge and keeps the invariant |
| `Scheduler.Runqueue.Return` | kernel/src/userspace/scheduler.c:577-636 | the charged process is queued again by its new priority, or is gone if it exited |
| `Scheduler.Runqueue.Reprioritise` | kernel/src/userspace/scheduler.c:652-685 | the process moves to the bucket of its priority; total_weight drifts by the change of weight |
| `Scheduler.Runqueue.SetPriority` | kernel/src/userspace/scheduler.c:644-669 | out of range: nothing; else both priorities are set, the real-time flag iff the priority is real-time, a queued process moves to the end of that bucket, and total_weight is right iff the process was not queued or its priority is the same |
| `Scheduler.Runqueue.Nice` | kernel/src/userspace/scheduler.c:671-686 | the nice value is the argument kept in -20..19; the priority is up to date for it, or that of a real-time process; a queued process moves to the end of its bucket; total_weight likewise |
| `Scheduler.Runqueue.Unqueue` | kernel/src/userspace/scheduler.c:59-84 | sched_dequeue as it is, of a process that is queued or not: the neighbours, head, tail and counters change, with the wrap-around of the 32-bit counters |
| `Scheduler.Runqueue.Sleep` | kernel/src/userspace/scheduler.c:234-256 | the heads, tails and sizes are those of some queues afterwards iff the process was queued; then it leaves its bucket and the rest stays in order; its sleep time and flags follow in both cases |
| `Scheduler.SleepBreaks` | kernel/src/userspace/scheduler.c:59-84 | unlinking a process that is in no queue leaves heads and sizes that fit no queues |
| `Scheduler.Runqueue.DispatchThenWait` | kernel/src/common/condvar.c:31-53 | a process that is dispatched and waits on a condition variable always leaves the queues broken |
| `Scheduler.Runqueue.Step` | kernel/src/userspace/scheduler.c:214-686 | every event keeps the invariant and has the effect it stands for |
| `Scheduler.Runqueue.Run` | kernel/src/userspace/scheduler.c:214-686 | every run keeps the invariant, and total_weight too if no priority is set; every event in the history has its effect |
| `Scheduler.Runqueue.WellLinked` | kernel/src/userspace/scheduler.c:34-84 | in every valid state each forward list is the reverse of the backward list, and sizes and total are exact |
| `Scheduler.Runqueue.OnePlace` | kernel/src/userspace/scheduler.c:448-637 | in every valid state a process is runnable and not current iff it is in a bucket, and then once, in the one it names |
| `Scheduler.ChargedClose` | kernel/src/userspace/scheduler.c:97-110 | charging the least by at most v keeps every pair within v |
| `Scheduler.Runqueue.Round` | kernel/src/userspace/scheduler.c:525-595 | one slice, with any timer ticks in it, keeps the bucket fair and charges it by the slice |
| `Scheduler.Runqueue.Share` | kernel/src/userspace/scheduler.c:525-595 | over any number of slices, with any timer ticks in them, every pair of the best bucket stays within v, no process of a worse bucket is dispatched, and one that has not been dispatched has waited at most 2 * v * n / c slices |
| `Scheduler.Runqueue.Populate` | kernel/src/userspace/scheduler.c:214-279 | processes started on an idle machine are fair with no slack |
| `PageAllocator.CarveEffect` | kernel/src/mem/mem.c:284-301 | carving takes exactly the frames from the front of the region |
| `PageAllocator.Allocator.AppendRegion` | kernel/src/mem/mem.c:61-100 | the region is added last unless empty; fails iff the static pool is used up |
| `PageAllocator.InsideRounded` | kernel/src/mem/mem.c:145-153 | below 4 GiB a region is the frames wholly inside the entry |
| `PageAllocator.Allocator.InitMem` | kernel/src/mem/mem.c:103-178 | it succeeds iff at most 32 entries have whole frames; then the usable frames are those of the memory map |
| `PageAllocator.Allocator.AddEntry` | kernel/src/mem/mem.c:118-167 | one entry: it fails iff it has whole frames and the static pool is used up; else the usable frames gain exactly those |
| `PageAllocator.Allocator.Push` | kernel/src/mem/mem.c:43-48 | the frame is first on the list |
| `PageAllocator.Allocator.Pop` | kernel/src/mem/mem.c:50-56 | the first frame leaves the list; none iff the list is empty |
| `PageAllocator.Allocator.FindRegion` | kernel/src/mem/mem.c:284-305 | the first region with enough frames left |
| `PageAllocator.Allocator.FromRegions` | kernel/src/mem/mem.c:198-221 | consecutive frames that were not out, from the front of the first region that has enough; none iff no region has |
| `PageAllocator.Allocator.FindRun` | kernel/src/mem/mem.c:323-367 | the first run of consecutive entries with ascending addresses; none iff there is none |
| `PageAllocator.CutRun` | kernel/src/mem/mem.c:351-363 | unlinking a run takes exactly its frames off the list |
| `PageAllocator.Allocator.FromFreelist` | kernel/src/mem/mem.c:315-371 | such a run leaves the list and is consecutive memory |
| `PageAllocator.Allocator.Kalloc` | kernel/src/mem/mem.c:223-269 | a frame that was not out, the one freed last if there is one; none iff list and regions are empty |
| `PageAllocator.Allocator.KallocPages` | kernel/src/mem/mem.c:374-394 | n consecutive frames that were not out, from the list if it has them; none iff n is 0 or neither list nor regions have them, for one page iff both are empty |
| `PageAllocator.Allocator.Kfree` | kernel/src/mem/mem.c:181-195 | the frame moves from out to the front of the list |
| `PageAllocator.Allocator.KfreePages` | kernel/src/mem/mem.c:397-410 | the frames move from out to the front of the list, in descending order |
| `PageAllocator.Allocator.Run` | kernel/src/mem/mem.c:181-410 | over every sequence of calls by a client that frees what it holds, list, regions and out partition the usable frames, no frame is handed out twice, and an allocation in the history failed exactly if nothing was left for it |
| `PageAllocator.NeverTwice` | kernel/src/mem/mem.c:181-410 | two allocations held share no frame |
| `PageAllocator.FreedNotReused` | kernel/src/mem/mem.c:404-409 | the list search does not find a multi-page block that was just freed |
| `InodeTable.OneSlotPerDnode` | kernel/src/fs/fs.c:94-160 | in every reachable state at most one slot in use per dnode |
| `InodeTable.CountIsHandles` | kernel/src/fs/fs.c:126-182 | the reference count of a slot in use is the number of handles on it |
| `InodeTable.HandleStays` | kernel/src/fs/fs.c:94-183 | a held handle's slot is in use for its dnode, and no step of anyone empties or reuses it |
| `InodeTable.HandleEnds` | kernel/src/fs/fs.c:174-183 | a handle ends only by the close of the thread that asked for it |
| `InodeTable.OpenGivesDnode` | kernel/src/fs/fs.c:104-159 | the step of fs_open that issues its handle issues it for the dnode it looked up; that it gets there, OpenAlone says |
| `InodeTable.NoneMeansFull` | kernel/src/fs/fs.c:104-159 | in every run, a thread about to return NULL has seen every slot of the table, one after the other since it was called and with the list and the slot locked, in use for another dnode |
| `InodeTable.OpenAlone` | kernel/src/fs/fs.c:94-160 | a thread that opens a dnode while no lock is held and nobody else moves gets a handle iff some slot is in use for the dnode or empty: on the slot in use, with one reference more, else on an empty slot that is filled; nothing else changes |
| `InodeTable.CloseAlone` | kernel/src/fs/fs.c:174-183 | likewise a close ends, gives up exactly that handle, and empties the slot iff it was the last |
| `InodeTable.DupAdds` | kernel/src/fs/fs.c:165-168 | fs_dup adds one handle on the same slot and dnode and one reference |
| `InodeTable.NoDeadlock` | kernel/src/fs/fs.c:94-183 | in every reachable state with a call under way some thread can go on |
| `InodeTable.AllIdle` | kernel/src/fs/fs.c:94-183 | when every thread is outside the calls no lock is held |
| `InodeTable.AdvanceKeeps` | kernel/src/fs/fs.c:94-183 | every step under the two lock levels keeps the invariant |
| `InodeTable.RunKeeps` | kernel/src/fs/fs.c:94-183 | every interleaving keeps it |
| `Spinlock.MutualExclusion` | kernel/src/common/spinlock.c:57-93 | in every reachable state at most one CPU holds a lock, and it is locked iff one does |
| `Spinlock.InterruptsRestored` | kernel/src/common/spinlock.c:19-40 | interrupts are off while depth > 0 and as before the outermost lock at depth 0, in any release order |
| `Spinlock.HoldingExact` | kernel/src/common/spinlock.c:45-52 | the answer is exact for CPUs with non-zero id, and wrong for CPU 0 exactly in the window between taking the lock and writing the id, or the reverse |
| `Spinlock.HolderGoesOn` | kernel/src/common/spinlock.c:57-93 | from the test the holder goes on to unlock, everybody but the holder to wait for the lock; a holder that locks again panics, and a CPU with non-zero id that unlocks what it does not hold; for CPU 0 HoldingExact applies |
| `Spinlock.LockAlone` | kernel/src/common/spinlock.c:57-73 | a CPU that locks a free lock while nobody else moves comes back with it, interrupts off and one level deeper |
| `Spinlock.UnlockAlone` | kernel/src/common/spinlock.c:78-93 | a holder that unlocks while nobody else moves comes back without the lock, which is free, and with the last one its interrupts are as before the first |
| `Spinlock.CpuZeroFalseDeadlock` | kernel/src/common/spinlock.c:62-72 | a run in which CPU 0 panics on a lock it does not hold |
| `Spinlock.NextKeeps` | kernel/src/common/spinlock.c:19-93 | every memory step of every CPU keeps the invariant |
| `Spinlock.RunKeeps` | kernel/src/common/spinlock.c:19-93 | every interleaving keeps it |
| `NvmeQueue.WaitsInStep` | kernel/src/drivers/drv_nvme.c:121-149 | for every ring size from 2 on and every run, a command starts with tail == head, left_commands is 1, and the k-th wait ends only on the k-th completion |
| `NvmeQueue.NoDeadlock` | kernel/src/drivers/drv_nvme.c:136-145 | a waiting driver can always go on, by polling or after the device's next step |
| `NvmeQueue.SubmitRings` | kernel/src/drivers/drv_nvme.c:121-135 | a call that starts advances the tail, rings the doorbell with the number of commands modulo the ring size and waits for one completion |
| `NvmeQueue.CommandCompletes` | kernel/src/drivers/drv_nvme.c:121-149 | submit, completion and poll end the call, each side having counted one command more |
| `NvmeQueue.PolledEntry` | kernel/src/drivers/drv_nvme.c:137-138 | the phase test tells the new entry from the stale one |
| `NvmeQueue.InitialInv` | kernel/src/drivers/drv_nvme.c:252-262 | the queues start in order |
| `NvmeQueue.RunKeeps` | kernel/src/drivers/drv_nvme.c:121-149 | every interleaving of driver and device keeps the ring in order |

## Left out

- Contents of dzFS blocks are typed values; reading a block through the wrong view of the union gives unspecified bytes. Creation dates, I/O errors and reference counting of memory blocks are not modelled.
- dzfs_move, dzfs_stat and dzfs_read_dir: the first is never reached and the others only report fields.
- DzFs.FileSystem.Descend: path components, as for Open.
- DzFs.FileSystem.Open: path components are non-empty and at most 254 characters, and a relative path starts at a folder; the name field of an entity holds no more.
- DzFs.FileSystem.Delete: the parent must be the folder of the entity, as open returned it; with another one the code frees the data blocks and then refuses, which leaves the invariant.
- DzFs.FileSystem.Read: requires the end of the read or the size to be at most the largest file, so that the block index is one of the pointers; the size can be larger only after writes that were not appends.
- LibcHeap.Heap.Malloc: byte counts from 2^63 on, which sbrk would take as negative; realloc and calloc.
- LibcHeap.Heap.Free: a pointer must be live or NULL, as the C standard demands of the caller.
- PageTables.AddressSpaces.Walk: no huge entry is on the way to the page, as kernel/src/mem/vmm.c:521 says of user mappings; the code would take it for a table.
- PageTables.AddressSpaces.WalkAddr: likewise.
- PageTables.AddressSpaces.MapOne: likewise.
- PageTables.AddressSpaces.MapPages: likewise, on the way to the pages to be mapped.
- PageTables.AddressSpaces.Allocate: likewise.
- PageTables.AddressSpaces.Copy: an entry is the record of P, W, U, XD, PS and the frame; PWT, PCD, G, A and D bits, the TLB and walk_kernel, which differs from walk only in range and U bit, are not modelled.
- Loader.Machine.CopyTurn: addresses below 4 GiB, where the rounding is exact.
- Loader.Machine.MemCpy: likewise.
- Loader.Machine.Zero: likewise.
- Loader.Machine.Segment: likewise.
- Loader.Machine.LoadProgram: likewise, for the headers that are loaded.
- Loader.Machine.LoadHeader: segments end at least a page below 4 GiB, where the 32-bit rounding is exact, and files are smaller than 4 GiB (dzFS files are); ELF header checks, the stack and argv are not modelled.
- Loader.Machine.LoadSegment: what fs_read leaves in memory is what dzfs_read returns for a file.
- vmm_user_pagetable_free, sbrk shrinking, user pointer validation: no clean invariant holds of them, or they depend on rounding above 4 GiB.
- Scheduler.Runqueue.Run: sched_sleep is no event of a run, since no invariant survives it (`Sleep`); scheduler_yield, which does what a preemption does; time slices, statistics and the process table are not modelled; the runqueue lock makes every event one step.
- Scheduler.Runqueue.Dequeue: the process must be queued; Unqueue is the same code for any process, which only sched_sleep needs.
- Scheduler.Runqueue.Sleep: the rolling average of the sleep time and the waiting channel; a process in no queue has null list pointers, as sched_fork and sched_dequeue leave them.
- Scheduler.Runqueue.Return: a process comes back runnable or exited; one that comes back sleeping has called sched_sleep, one still marked running is dropped by the code.
- Scheduler.Runqueue.Enqueue: total_weight is unbounded; the code keeps it modulo 2^64.
- Scheduler.Runqueue.Share: processes that keep their priority and never slept; min_vruntime never leaves 0, so the bound is for processes started together.
- PageAllocator.Allocator.AppendRegion: region nodes from kalloc_for_page_cache, which init_mem never uses because nothing is free before it ends.
- PageAllocator.Allocator.Kalloc: what memset leaves in a page, alignment panics and the two locks.
- PageAllocator.Allocator.KallocPages: n below 2^52, so that the byte count does not wrap.
- PageAllocator.Allocator.InitMem: entries that end below 4 GiB, where the rounding is exact, and do not overlap.
- InodeTable.RunKeeps: the parent and size fields, the dzFS calls inside fs_open, and wrap-around of the 32-bit count.
- Spinlock.MutualExclusion: a client on CPU 0 unlocks only what it holds; there the check of spinlock_unlock can be wrong (HoldingExact).
- Spinlock.NextKeeps: memory steps are sequentially consistent, as the fences and x86 locked instructions make them; the switch spinlocks_enabled is on.
- NvmeQueue.WaitsInStep: the device posts completions in order with the phase tag of section 4.6 of the NVM Express Base Specification 1.4; the content of commands is not modelled.
- kmalloc.c, the serial ring, printf, the device manager, the syscall table, drivers and hardware, signature mocks: outside the core.
