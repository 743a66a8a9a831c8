# Verified model of the MFTT-RISCV kernel core

This project models the parts of the MFTT-RISCV kernel whose correctness is hardest to see, and
proves what they are for. Operations that the C code carries out step by step on memory are methods
with loops on class fields; each is proved against a specification on values, and what the kernel
relies on is proved about that specification, over every input or every run.

C memory is modelled as maps from addresses to records (`RbMemory.Memory`, `KmemIndex.Heads`,
`PageTables.Tables`, `BuddyLists.Links`), so that aliasing and in-place update are part of the model.
Concurrent parts are state machines whose atomic steps go from taking a lock to giving it back, by
returning or by going to sleep.

| area | files | source |
|---|---|---|
| page allocator | `Numbers`, `Words`, `BuddySpec`, `BuddyProofs`, `BuddyRuns`, `BuddyMaps`, `BuddyOverlap`, `BuddyLists`, `BitArray`, `Buddy` | kernel/memory/buddy.c, memory.c, utils.h, kernel/header/lib/bitset.h |
| red-black tree | `RbShape`, `RbMemory`, `RbRotate`, `RbInsertShape`, `RbRemoveShape`, `RbTransplant`, `RbTree` | kernel/lib/rb_tree.c |
| kernel heap | `KmemSpec`, `KmemIndex`, `Kmem` | kernel/memory/kmem.c |
| address spaces | `CowSpec`, `CowProofs`, `CowRuns`, `PageTables`, `Paging` | kernel/memory/paging.c |
| pipes, sleep, scheduling | `PipeSpec`, `PipeProofs`, `Pipe`, `Scheduler` | kernel/dev/pipe/pipe.c, kernel/proc/sleep.c, kernel/scheduler/scheduler.c |
| disk queue | `Bitset`, `VirtioSpec`, `VirtioProofs`, `VirtioQueue` | kernel/dev/virtio/virtio_disk.c, virtio_mmio.c, kernel/header/lib/bitset.h |
| block cache, FAT32 | `Cache`, `FatSpec`, `Fat` | kernel/dev/buffered_io.c, kernel/fs/fatfs/fatfs_impl_omochaos.c |
| paths | `VfsSpec`, `Vfs` | kernel/fs/vfs.c |

`Sets` holds facts about finite sets. Everything is in `dfyconfig.toml`.

## Where the code does less than it seems to

The model follows the code. Where an expected property fails, a lemma gives the condition under which
it holds; where an operation has an unexpected outcome, its contract says when.

- init_memory computes the place of each buddy bitmap with a number of bytes added to a pointer to
  words, and the number is rounded down to 0 for an order with less than eight pairs. Below 2048 pages
  the bitmaps of the top two orders are therefore the same words, and the allocator loses track of free
  blocks: it works on every run if and only if it has nothing to manage or memory has 2048 pages
  (`BuddyOverlap.AllocatorWorks`; `BuddyOverlap.HalvesStay` is what one page_alloc and page_free leave).
- A write fault grants write access to any page mapped without it, copy-on-write or read-only. Write
  protection holds throughout a run if and only if no fault comes from a page that was loaded read-only
  or inherited from one (`CowRuns.ProtectionHolds`, `CowRuns.ReadOnlyAndLeak`).
- dealloc_page_dir frees the tables of a directory without looking for pages still mapped; the test
  for that is for a level that leaf tables never have. Reference counts stay right exactly when no
  user page is left (`CowRuns.DropKeepsCounts`).
- do_pagefault reads the entry before comparing it with NULL, so its answer -1 is never given
  (`Paging.Paging.DoPagefault`).
- kmalloc keeps kmem_lock when it returns NULL, stops the kernel when the free bytes are enough but no
  single block is, and reads through NULL when it hands out the last free block whole
  (`Kmem.Pool.Kmalloc`). Its size computation wraps for requests above 2^64 - 48 bytes
  (`KmemSpec.RequestFits`, `KmemSpec.HugeRequest`).
- kfree joins a block with free blocks behind it only, so kfree right after kmalloc does not always
  restore the pool (`KmemSpec.FreeUndoesTake`, `KmemSpec.NeighboursReached`, `KmemSpec.NeighboursJoin`).
- FAT read takes the first sector of the cluster for an offset inside a later sector, and its cluster
  arithmetic uses the root cluster number instead of 2. A read is right whatever the file holds if and
  only if it copies nothing, or the root cluster is 2 and the offset is at the start of a sector or in
  the first sector of its cluster (`FatSpec.ReadExact`). Its 32-bit walk counter never passes an offset
  in the last cluster below 4 GiB (`FatSpec.WalkEnds`).
- vfs_get_dentry compares its name buffer with "/" although nothing was written to it when a directory
  is missing: the answer is a matter of the path alone if and only if the directory is found
  (`VfsSpec.Determined`).
- alloc_page_dir ignores the results of the device mappings (`Paging.Paging.AllocPageDir`).

## Model

| member | source | states |
|---|---|---|
| Words.OrderIsLeast | kernel/memory/utils.h:21-39 | for n from 1 to 256 pages the order k found by bit smearing and the de Bruijn table is the least with n at most 2^k |
| Words.OrderTooLarge | kernel/memory/utils.h:21-39 | for more than 256 pages the order found is beyond the largest, so the request fails |
| BuddySpec.MaxFreeDisjoint | kernel/memory/buddy.c:50-109 | two maximal free blocks that share a page are the same block |
| BuddyProofs.AllocFails | kernel/memory/buddy.c:50-78 | allocation of an order fails if and only if every list from that order up is empty |
| BuddyProofs.AllocInv | kernel/memory/buddy.c:50-78 | a successful allocation hands out an aligned run of pages that were free, and lists and bitmaps are again exactly those of the pages now in use |
| BuddyProofs.FreeInv | kernel/memory/buddy.c:80-109 | freeing any aligned block of pages in use leaves the maximal free blocks of the remaining pages in use: merging is complete |
| BuddyProofs.FreeUndoesAlloc | kernel/memory/buddy.c:50-109 | with a map of its own for every order, freeing what was just allocated restores every list and every map |
| BuddyProofs.Canonical | kernel/memory/buddy.c:50-109 | free lists (as multisets) and bitmaps depend only on which pages are in use, not on the history |
| BuddyRuns.PageByPage | kernel/memory/buddy.c:80-109 | freeing a block page by page ends with the same free blocks and bitmaps as freeing it whole |
| BuddyRuns.InitialInv | kernel/memory/memory.c:84-95 | the state after initialisation satisfies the invariant and all its pages are free |
| BuddyRuns.StepGood | kernel/memory/buddy.c:50-109 | with separate maps, one allocation or release keeps the invariant and the number of pages in use plus free |
| BuddyRuns.FreeBlocksSeparate | kernel/memory/buddy.c:9-109 | in every such state free blocks are aligned, inside memory, disjoint from each other and from pages in use, and never two free buddies below the top order |
| BuddyRuns.OnePageFails | kernel/memory/buddy.c:124-130 | a request for one page fails if and only if every page is in use |
| BuddyMaps.BitmapsApart | kernel/memory/memory.c:45-52 | at the offsets init_memory computes no map runs into the next one if and only if there is nothing to manage or memory has 2048 pages |
| BuddyMaps.InTable | kernel/memory/memory.c:19-52 | the bits of all managed pairs lie in the table set aside at the end of memory, overlapping or not |
| BuddyMaps.UniteToggle | kernel/memory/buddy.c:44-48 | with the maps apart, flipping a bit of the shared array flips that pair in the map of its order and nothing else |
| BuddyMaps.AllocFlat | kernel/memory/buddy.c:50-78 | with the maps apart, allocation on the shared array is allocation with separate maps |
| BuddyMaps.FreeFlat | kernel/memory/buddy.c:80-109 | so is freeing, and the buddy it takes off a list is always on it |
| BuddyMaps.FreeRestores | kernel/memory/buddy.c:50-109 | with the maps apart, page_free of what page_alloc just returned restores every list and the whole array |
| BuddyMaps.RunProper | kernel/memory/buddy.c:50-109 | with the maps apart, after any calls in any order every list holds exactly the maximal free blocks, and pages in use and free pages add up to the managed pages |
| BuddyOverlap.OneBlock | kernel/memory/buddy.c:50-109 | with one managed block, page_free after page_alloc of a page restores the state if and only if memory has 2048 pages |
| BuddyOverlap.HalvesStay | kernel/memory/buddy.c:50-109 | with one managed block and 1024 to 2047 pages the two calls leave both halves of the block on the list of order 7 |
| BuddyOverlap.FreeBlockUnlisted | kernel/memory/buddy.c:50-109 | below 2048 pages, for every number of managed blocks, a run after which a wholly free block is not on its list |
| BuddyOverlap.AllocatorWorks | kernel/memory/memory.c:45-52 | the lists are right after every run if and only if there is nothing to manage or memory has 2048 pages |
| BuddyLists.UnlinkList | kernel/memory/buddy.c:9-28 | the pointer writes that take a block off a free list leave a well-linked list without exactly that block |
| BuddyLists.PushList | kernel/memory/buddy.c:30-42 | the pointer writes that put a block in front leave a well-linked list with it first |
| Buddy.Allocator.RemoveFromFreeList | kernel/memory/buddy.c:9-28 | the list of the order loses the block, the other lists stay linked as they were |
| Buddy.Allocator.AttachToFreeList | kernel/memory/buddy.c:30-42 | the list of the order gains the block in front |
| Buddy.Allocator.XorBuddyMap | kernel/memory/buddy.c:44-48 | exactly the bit at the address of the pair flips in the shared array, which is the bit of the pair in the map of its order; its new value is returned |
| BitArray.XorToggles | kernel/header/lib/bitset.h:24-30 | xor_bit flips exactly one bit of the array, and check_bit then returns its new value |
| Buddy.PlaceMaps | kernel/memory/memory.c:45-52 | the loop places every bitmap at the offset of the layout |
| Buddy.Allocator.AllocatePow2 | kernel/memory/buddy.c:50-78 | the recursive split on linked lists is the specified allocation; every page handed out has the given type and reference 1; pages in use keep their information; failure changes nothing |
| Buddy.Allocator.FreePow2 | kernel/memory/buddy.c:80-109 | the recursive merge on linked lists is the specified release; every page of the block is recorded as free and unreferenced, pages in use keep their record; NULL and foreign addresses are answered 1 and 2 without a change |
| Buddy.Allocator.PageAlloc | kernel/memory/buddy.c:124-130 | an aligned block of the least sufficient order, disjoint from all pages in use; NULL without change if and only if no block of that order or above is free |
| Buddy.Allocator.PageFree | kernel/memory/buddy.c:131-137 | exactly the pages of the block leave the set in use, and their records say so |
| Buddy.Allocator.MemoryAvailable | kernel/memory/memory.c:120-127 | the sum over the counters is 4096 bytes for each free page |
| Buddy.Allocator.constructor | kernel/memory/memory.c:19-107 | for any sizes the top list holds whole 256-page blocks, every page is marked free, the array is clear and 1 to 256 pages at the end are left to the heap; the result is a working allocator if and only if it manages nothing or memory has 2048 pages |
| RbShape.SearchDepth | kernel/lib/rb_tree.c:27-37 | a red-black tree of n nodes has height h with 2^h at most (n + 1)^2 |
| RbInsertShape.InsertRecolor | kernel/lib/rb_tree.c:119-133 | recolouring with a red uncle moves the only red-red violation two levels up and changes no black height |
| RbInsertShape.InsertDone | kernel/lib/rb_tree.c:115-173 | where the loop stops, blackening the root gives a balanced tree |
| RbRemoveShape.RemoveRecolor | kernel/lib/rb_tree.c:216-220 | with a black sibling that has black children, reddening it moves the missing black one level up |
| RbRemoveShape.RemoveOuterLeft | kernel/lib/rb_tree.c:228-233 | with a red outer nephew one rotation makes up for the missing black |
| RbRemoveShape.RemoveDone | kernel/lib/rb_tree.c:207-266 | where the removal loop stops, blackening the node gives a balanced tree |
| RbTransplant.TransplantCorrect | kernel/lib/rb_tree.c:270-310 | the pointer writes that move the successor into the place of a node with two children leave memory holding exactly the tree in which it took that place |
| RbTransplant.ReplaceCorrect | kernel/lib/rb_tree.c:331-358 | the pointer writes of rb_replace leave memory holding the same tree with one node exchanged |
| RbTree.RbTree.Search | kernel/lib/rb_tree.c:27-37 | NULL if and only if no node has the key, otherwise the node that has it |
| RbTree.RbTree.Succ | kernel/lib/rb_tree.c:39-53 | the next node in key order, NULL after the last |
| RbTree.RbTree.Pred | kernel/lib/rb_tree.c:55-69 | the previous node in key order, NULL before the first |
| RbTree.RbTree.RotateLeft | kernel/lib/rb_tree.c:73-92 | memory holds the rotated tree at the same place, parent pointers included |
| RbTree.RbTree.RotateRight | kernel/lib/rb_tree.c:94-113 | memory holds the rotated tree at the same place, parent pointers included |
| RbTree.RbTree.InsertFixup | kernel/lib/rb_tree.c:115-173 | from a tree with one red-red violation the loop ends with a balanced tree of the same nodes in the same order |
| RbTree.RbTree.Insert | kernel/lib/rb_tree.c:175-202 | a new key is added in order to a tree that stays red-black and correctly linked; for a key that exists the tree is untouched, its holder is returned and the new node has null children |
| RbTree.RbTree.RemoveFixup | kernel/lib/rb_tree.c:204-266 | from a tree short of one black node on one path the loop ends, with a balanced tree of the same nodes in the same order |
| RbTree.RbTree.Remove | kernel/lib/rb_tree.c:268-329 | any node can be removed: the tree stays red-black and correctly linked and loses exactly that node |
| RbTree.RbTree.Replace | kernel/lib/rb_tree.c:331-358 | a node outside the tree with the same key and null children takes the place of one in it; everything else stays |
| KmemSpec.TakeTiles | kernel/memory/kmem.c:305-316 | taking a block, split or whole, keeps the blocks tiling the pool |
| KmemSpec.TakeExact | kernel/memory/kmem.c:305-316 | the block in use is less than a smallest block longer than needed, the rest is one free block behind it, and no other block changes |
| KmemSpec.GiveTiles | kernel/memory/kmem.c:358-384 | freeing keeps the tiling, loses no block in use, and what follows the freed block is in use or is the end of the pool |
| KmemSpec.TilesTotal | kernel/memory/kmem.c:264-390 | the sizes of the blocks of a tiling add up to the pool |
| KmemSpec.FreeTake | kernel/memory/kmem.c:305-316 | taking lowers the free total by exactly the size of the block in use |
| KmemSpec.FreeGive | kernel/memory/kmem.c:361-384 | freeing raises the free total by exactly the size of the block, however many blocks it is joined with |
| KmemSpec.Conservation | kernel/memory/kmem.c:264-390 | bytes free and bytes in use always add up to the pool |
| KmemSpec.FreeUndoesTake | kernel/memory/kmem.c:264-390 | kfree after kmalloc restores the layout if and only if the block behind was not free |
| KmemSpec.NeighboursJoin | kernel/memory/kmem.c:361-380 | two free neighbours of an attached pool: taking the first and freeing it does not give them back |
| KmemSpec.NeighboursReached | kernel/memory/kmem.c:264-390 | two kmalloc and two kfree lead from a newly attached pool to those neighbours |
| KmemSpec.RequestFits | kernel/memory/kmem.c:274-281 | the block holds the request between its canaries if and only if the request is at most 2^64 - 48 |
| KmemSpec.NeedIsLeast | kernel/memory/kmem.c:274-281 | up to 2^64 - 48 bytes the size looked for is the least multiple of 16 that is a possible block size and has room for header, canaries and request |
| KmemSpec.LargeEnough | kernel/memory/kmem.c:274-289 | so a block is large enough for the search if and only if it can hold the request |
| KmemSpec.HugeRequest | kernel/memory/kmem.c:274-281 | a request of 2^64 - 47 bytes is given the smallest block |
| KmemSpec.LiveApart | kernel/memory/kmem.c:316-334 | memory handed out is 16-byte aligned, inside the pool, and disjoint from every other block |
| KmemIndex.PutIndexed | kernel/memory/kmem.c:124-176 | the header writes of an insertion leave lists that hold exactly the free blocks, with flags that match the links |
| KmemIndex.DropIndexed | kernel/memory/kmem.c:179-239 | the header writes of a removal leave lists that hold exactly the other free blocks, with flags that match the links |
| KmemIndex.MatchSwap | kernel/memory/kmem.c:219-223 | when the first block of a size leaves, the tree node of the second stands for that size |
| KmemIndex.AllListed | kernel/memory/kmem.c:80-98 | the blocks reached through the tree and its lists are exactly the free blocks |
| Kmem.Pool.SearchUpper | kernel/memory/kmem.c:241-257 | the node with the least key of at least the given one, NULL if and only if all keys are smaller |
| Kmem.Pool.InsertIntoPool | kernel/memory/kmem.c:124-176 | tree, lists and headers agree again with the block free; no other block changes size or use; the list asserts hold |
| Kmem.Pool.RemoveFromPool | kernel/memory/kmem.c:179-239 | tree, lists and headers agree on all free blocks but this one; no block changes size; the link asserts hold |
| Kmem.Pool.TreeTotal | kernel/memory/kmem.c:80-98 | the recursive walk with its list loops returns the bytes of the free blocks below a node |
| Kmem.Pool.CheckTotal | kernel/memory/kmem.c:318-319 | the total found equals pool->free, so the assert cannot fire |
| Kmem.Pool.TakeBlock | kernel/memory/kmem.c:304-316 | the layout changes as specified, with index and total kept |
| Kmem.Pool.Kmalloc | kernel/memory/kmem.c:264-335 | for requests up to 2^64 - 48 bytes: an aligned pointer with room for the request between the canaries, into the smallest free block that can hold it, with the pool consistent and unlocked; NULL and the panic if and only if no free block can hold it, told apart by the free total; the empty-tree fault only when the only free block is handed out whole; the lock stays held exactly on NULL |
| Kmem.Pool.JoinNext | kernel/memory/kmem.c:365-375 | one merge step is the specified one, with index and total kept |
| Kmem.Pool.Kfree | kernel/memory/kmem.c:337-390 | the block is free, joined with everything free behind it, with tiling, index, flags and total kept |
| Kmem.Pool.constructor | kernel/memory/kmem.c:100-121 | the pool, below 4 GiB as the 32-bit size field demands, is one free block behind a header of 40 bytes |
| CowProofs.ForkShows | kernel/memory/paging.c:230-255 | sharing a frame read-only shows parent and child what a copy would |
| CowProofs.UnprotectShows | kernel/memory/paging.c:292-295 | making the only mapping of a frame writable changes nothing a process can read |
| CowProofs.CopyShows | kernel/memory/paging.c:296-306 | neither does the private copy of a shared page |
| CowProofs.StoreShows | kernel/memory/paging.c:258-309 | a store through a writable page changes one byte of one page of one process |
| CowProofs.UnmapShows | kernel/memory/paging.c:108-125 | unmapping takes away one page, and the frame goes back if and only if do_free is set and that was its last mapping in any directory |
| CowRuns.FaultGrants | kernel/memory/paging.c:287-308 | after a write fault the page is writable and holds what it held, so the store goes through |
| CowRuns.StepShows | kernel/memory/paging.c:101-309 | every step of the kernel is matched by a step of a machine that copies pages on fork and has no frames or counts |
| CowRuns.RunShows | kernel/memory/paging.c:101-309 | so is every run, in any interleaving of new directories, loads, forks, faults, stores, unmaps and dropped directories |
| CowRuns.CopyOnWriteRefinesCopy | kernel/memory/paging.c:217-309 | from boot, every process reads exactly the pages it would own under eager copying; each reference count is the number of mappings; a writable page is mapped once |
| CowRuns.ReferencesFit | kernel/memory/utils.h:57-69 | in every run a reference count is at most the number of directories, so it fits 16 bits as long as these do; there are at most 32 processes |
| CowRuns.DropKeepsCounts | kernel/memory/paging.c:195-215 | dropping a directory keeps the counts right if and only if it maps no user page |
| CowRuns.FaultHonours | kernel/memory/paging.c:287-306 | one write fault keeps the protection of a page if and only if the page may be written |
| CowRuns.ProtectionHolds | kernel/memory/paging.c:217-309 | from boot, no page is ever writable against what loading said and fork passed on, if and only if no write fault comes from a page that may not be written |
| CowRuns.EntriesAsMade | kernel/memory/paging.c:101-309 | from boot, each directory maps exactly what loading, fork and its creation gave it: every user page is readable, executable and global as it was loaded, through every fork and fault, and no kernel entry ever changes |
| CowRuns.ReadOnlyAndLeak | kernel/memory/paging.c:195-306 | one read-only page: its process can store into it after a fault, and dropping the directory loses the frame |
| PageTables.PxInjective | kernel/memory/paging.c:25-28 | the three 9-bit indices name the page |
| PageTables.AddTableDirs | kernel/memory/paging.c:51-57 | a zeroed table put under an empty entry keeps the three-level shape and every translation of every directory |
| PageTables.SetLeafDirs | kernel/memory/paging.c:79-83 | writing a leaf entry changes the translation of one page of one directory and no other |
| PageTables.AddedPages | kernel/memory/paging.c:70-94 | the pages added are exactly the requested ones, with consecutive frames, and no other entry moves |
| PageTables.NewRootDirs | kernel/memory/paging.c:174-185 | a new directory maps nothing outside the kernel's gigabyte, and the other directories stay |
| PageTables.DropDirs | kernel/memory/paging.c:195-215 | without the tables of one directory the other directories translate as before |
| Paging.Paging.constructor | kernel/memory/paging.c:128-150 | the tables begin as one directory that maps nothing but the kernel gigabyte, with every other frame free and the counts right |
| Paging.Paging.WalkPages | kernel/memory/paging.c:42-60 | the entry of the page; no translation changes although tables may be added from free frames; NULL only for a missing table without alloc or when no frame is free |
| Paging.Paging.MapPages | kernel/memory/paging.c:62-96 | on 0 exactly the requested pages are added with the given bits; -2 if and only if it met a page mapped before, -1 only when no frame is free, each with exactly the pages before it added |
| Paging.Paging.UnmapOne | kernel/memory/paging.c:108-125 | the flat map loses the page, the frame is freed with its last reference if do_free is set, and every frame stays either allocated or free |
| Paging.Paging.UnmapPages | kernel/memory/paging.c:101-126 | the same for the whole range, with do_free set or not; an address inside a page is the panic, without a change; no table is freed |
| Paging.Paging.ShareFrame | kernel/memory/paging.c:245-254 | child and parent entry become the same mapping, the parent's without the write bit, and the count goes up by one |
| Paging.Paging.VmCopy | kernel/memory/paging.c:217-256 | for every page the addresses touch, the address spaces become those of the specified fork; the panic only when no frame is free |
| Paging.Paging.BreakSharing | kernel/memory/paging.c:287-308 | -4 for a writable page and -2 for a shared page without a free frame, both without a change; otherwise the page is writable, its own, and the frame count is conserved |
| Paging.Paging.DoPagefault | kernel/memory/paging.c:258-309 | every answer exactly in its case; an address without tables is a null dereference, never -1 |
| Paging.Paging.DoPdeFree | kernel/memory/paging.c:195-211 | exactly the tables of the subtree are freed, each once, and no leaf or huge-page frame |
| Paging.Paging.DeallocPageDir | kernel/memory/paging.c:213-215 | the directory is gone, its tables are free, all other directories, counts and frames stay |
| Paging.Paging.AllocPageDir | kernel/memory/paging.c:174-193 | NULL if and only if no frame is free; otherwise only device pages are mapped, none for users and all global, and all of them if memory lasts and they do not overlap |
| PipeSpec.PeekStream | kernel/dev/pipe/pipe.c:64-71 | what a read takes from the ring is the next piece of the stream written |
| PipeSpec.FilledRing | kernel/dev/pipe/pipe.c:84-97 | a write appends its bytes to the stream and overwrites nothing that is still to be read |
| PipeProofs.StepInv | kernel/dev/pipe/pipe.c:55-121 | every turn of a reader or writer, every close and every spurious wakeup keeps the invariant |
| PipeProofs.FirstInFirstOut | kernel/dev/pipe/pipe.c:55-102 | in every run, with any number of readers and writers, what was read is the beginning of what was written, with at most 512 bytes between |
| PipeProofs.NoLostWakeup | kernel/dev/pipe/pipe.c:55-121 | a sleeping reader means an empty pipe with open ends, a sleeping writer a full one; readers and writers never sleep at the same time |
| PipeProofs.FreedIsIdle | kernel/dev/pipe/pipe.c:104-121 | when the pipe is freed no process is inside an operation on it |
| PipeProofs.ReadReturns | kernel/dev/pipe/pipe.c:55-75 | a read that returns has taken the next bytes of the stream, as many as asked for or all there are; none for a nonempty request if and only if the write end is closed and everything was read |
| PipeProofs.WriteReturns | kernel/dev/pipe/pipe.c:77-102 | a write that returns with the read end open has put all its bytes on the stream in order, whatever other writers did between its turns; otherwise a beginning of them, short only when the pipe is full |
| Pipe.PipeBuffer.ReadTurn | kernel/dev/pipe/pipe.c:55-75 | the copy loop takes the oldest bytes, all that were asked for or all there are, and leaves the rest of the buffer alone; it sleeps if and only if the pipe is empty and can still be written; it is the turn the runs are made of |
| Pipe.PipeBuffer.WriteTurn | kernel/dev/pipe/pipe.c:77-102 | the copy loop appends bytes until its buffer is done or the pipe is full, and ends complete, asleep or broken, each exactly in its case; it is the turn the runs are made of |
| Pipe.PipeBuffer.Close | kernel/dev/pipe/pipe.c:104-121 | the end is closed; the pipe is freed exactly with the second end |
| Pipe.PipeBuffer.constructor | kernel/dev/pipe/pipe.c:30-53 | both ends open and the ring empty |
| Pipe.PipeCreate | kernel/dev/pipe/pipe.c:30-53 | -1 and no pipe if and only if there is no memory, otherwise an empty pipe with both ends open |
| Scheduler.WokenMeaning | kernel/proc/sleep.c:10-42 | wakeup leaves nobody parked on the channel and touches nobody else; a process that went to sleep is not runnable until then and is afterwards |
| Scheduler.ProcTable.Sleep | kernel/proc/sleep.c:10-19 | the process is parked on the channel and both locks are free; at every moment on the way the caller's lock or that of the process is held, or the process is parked, so no wakeup falls between |
| Scheduler.ProcTable.Resume | kernel/proc/sleep.c:21-26 | the channel is left and exactly the lock given to sleep is held again |
| Scheduler.ProcTable.Wakeup | kernel/proc/sleep.c:29-42 | every process parked on the channel, and no other, becomes ready |
| Scheduler.ProcTable.Schedule | kernel/scheduler/scheduler.c:13-55 | NULL if and only if nobody is runnable; otherwise the first runnable process cyclically after the last one, with its lock and no other held |
| Scheduler.FairRound | kernel/scheduler/scheduler.c:13-55 | over a fixed list of n processes, one that stays runnable is among any n picks in a row |
| Bitset.FirstClearIsLowest | kernel/header/lib/bitset.h:32-49 | the de Bruijn product finds the lowest clear bit of any 32-bit word that has one |
| VirtioProofs.NoThree | kernel/dev/virtio/virtio_disk.c:161-226 | three live requests would need nine of the eight descriptors |
| VirtioProofs.ExactIndex | kernel/dev/virtio/virtio_disk.c:289-297 | the comparison of the used indices modulo 8 is exact |
| VirtioProofs.StepInv | kernel/dev/virtio/virtio_disk.c:161-299 | every step of a process, of the device and of the interrupt handler keeps the invariant |
| VirtioProofs.AtMostTwo | kernel/dev/virtio/virtio_disk.c:161-226 | in every run live requests own disjoint descriptors and there are at most two |
| VirtioProofs.OwnCompletion | kernel/dev/virtio/virtio_disk.c:216-225 | the flag a request waits for is set if and only if the device reported that very request and the handler saw it, and nobody sleeps on a flag that is set |
| VirtioProofs.SeenOnce | kernel/dev/virtio/virtio_disk.c:284-299 | every report is seen once and in order, and belongs to a live request |
| VirtioProofs.WaitersWait | kernel/dev/virtio/virtio_disk.c:166-170 | a process sleeps for descriptors only while two requests are live, so a wakeup is still to come |
| VirtioQueue.Queue.DescAlloc | kernel/dev/virtio/virtio_mmio.c:66-73 | the lowest free descriptor, or -1 if and only if all eight are in use; bits above the descriptors do not matter |
| VirtioQueue.Queue.DescFree | kernel/dev/virtio/virtio_mmio.c:75-89 | that descriptor is free, others keep their contents, all links survive for the chain walk |
| VirtioQueue.Queue.AllocSome | kernel/dev/virtio/virtio_mmio.c:91-108 | all descriptors asked for or none: success if and only if fewer than eight are asked for and that many are free; no link changes |
| VirtioQueue.Queue.SetUpRequest | kernel/dev/virtio/virtio_disk.c:165-200 | three free descriptors become a linked chain of header, data and status with the right directions, other chains keep theirs; without three it changes no link and takes none |
| VirtioQueue.Queue.FreeChain | kernel/dev/virtio/virtio_mmio.c:110-119 | exactly the descriptors of the chain become free |
| VirtioQueue.HandleInterrupt | kernel/dev/virtio/virtio_disk.c:284-299 | exactly the requests reported since the last time are marked and woken, in order, up to the first with a non-zero status, where it panics |
| Cache.BioCache.Get | kernel/dev/buffered_io.c:23-75 | the buffer of the block moves to the front or is added, held once more; a full cache gives up the last buffer nobody holds |
| Cache.BioCache.Lock | kernel/dev/buffered_io.c:35-36 | the lock is taken if and only if it was free |
| Cache.BioCache.Fill | kernel/dev/buffered_io.c:78-89 | the buffer is valid afterwards; one that was not holds the block the device returned, one that was is left alone |
| Cache.BioCache.Release | kernel/dev/buffered_io.c:102-110 | the panic if and only if nobody has the lock; otherwise lock and one reference are given back |
| Cache.VictimIsOldest | kernel/dev/buffered_io.c:43-55 | the buffer given up is the least recently got of those nobody holds |
| Cache.NextInv | kernel/dev/buffered_io.c:23-110 | every get, lock, fill and release keeps the invariant |
| Cache.ReadsDevice | kernel/dev/buffered_io.c:23-110 | in every run a block has at most one buffer, a valid buffer equals the block, a locked buffer is held, and the cache is no larger than 16 or the most buffers held at once |
| Cache.ReadFills | kernel/dev/buffered_io.c:78-89 | in every run, after a read the buffer is valid, still of the same block, and holds what the device holds |
| Cache.ReferencesCount | kernel/dev/buffered_io.c:23-110 | in every run a reference count is how often the block was got and not yet released, and a block somebody holds is never given up |
| FatSpec.SectorIsStandard | kernel/fs/fatfs/fatfs_impl_omochaos.c:128-129 | the cluster macro agrees with the section "FAT Data Structure" of the Microsoft FAT32 File System Specification 1.03 if and only if the root cluster is 2 |
| FatSpec.EntryStored | kernel/fs/fatfs/fatfs_impl_omochaos.c:292-303 | the entry of a table that stores a number with its lowest byte first is the low 28 bits of that number |
| FatSpec.ChainStored | kernel/fs/fatfs/fatfs_impl_omochaos.c:292-303 | a list of clusters stored in the table that way is the chain found, whatever the reserved bits hold |
| FatSpec.FileStored | kernel/fs/fatfs/fatfs_impl_omochaos.c:391-445 | the bytes of such a file lie in the clusters of the list, at the sectors of the standard |
| FatSpec.GoodRead | kernel/fs/fatfs/fatfs_impl_omochaos.c:404-443 | with the root in cluster 2, at an offset on a sector boundary or in the first sector of its cluster, every byte is taken from where the standard puts it |
| FatSpec.BadRead | kernel/fs/fatfs/fatfs_impl_omochaos.c:128-129 | with another root cluster or at any other offset already the first byte is taken from another place |
| FatSpec.ReadExact | kernel/fs/fatfs/fatfs_impl_omochaos.c:391-445 | all bytes copied are those of the file, on every disk of bytes with the same size and chain, if and only if the root cluster is 2 and the offset is one of those, or nothing is copied |
| FatSpec.WalkEnds | kernel/fs/fatfs/fatfs_impl_omochaos.c:400-402 | for a cluster size that divides 2^32, the 32-bit counter ever passes an offset if and only if the offset lies before the last cluster below 4 GiB |
| Fat.GetNextClus | kernel/fs/fatfs/fatfs_impl_omochaos.c:292-303 | for a table that stores x for the cluster, lowest byte first, the answer is x modulo 2^28, found in one cached sector |
| Fat.Walk | kernel/fs/fatfs/fatfs_impl_omochaos.c:400-402 | the cluster of the offset along the chain |
| Fat.Read | kernel/fs/fatfs/fatfs_impl_omochaos.c:391-445 | the length is the part of the request inside the file; each byte comes from the place the code computes, which under the condition of ReadExact is the byte of the file by the standard; the rest of the buffer is untouched |
| VfsSpec.ScanText | kernel/fs/vfs.c:94-161 | after the path of an entry the scan is in its parent with its name as last component |
| VfsSpec.ResolvePath | kernel/fs/vfs.c:78-234 | resolving the full path of any entry of a well-formed tree, from any working directory, gives that entry |
| VfsSpec.RelativePath | kernel/fs/vfs.c:78-207 | a relative path means what the full path of the working directory joined with it means |
| VfsSpec.ResolveFirst | kernel/fs/vfs.c:78-207 | a path means what its rest means from the directory its first component names; if there is none the directory is missing |
| VfsSpec.Dots | kernel/fs/vfs.c:100-107 | "." is the directory itself and ".." its parent, alone and inside a path; above the root ".." is NULL at the end of a path and the root inside one |
| VfsSpec.Named | kernel/fs/vfs.c:108-119 | a name is the entry of that name in the directory, and NULL if and only if there is none |
| VfsSpec.PathFits | kernel/fs/vfs.c:90-98 | every component of a full path fits the 32-byte name buffers |
| Vfs.FullPath | kernel/fs/vfs.c:209-234 | the string built backwards in the buffer is the path from the root |
| Vfs.GetParentDentry | kernel/fs/vfs.c:78-162 | the character loop ends as the scan of the path does; what it copies fits its buffers |
| Vfs.GetDentry | kernel/fs/vfs.c:164-207 | the entry the path denotes or NULL; for a missing directory the root if the uninitialised name buffer happens to hold "/", otherwise NULL |
| VfsSpec.Determined | kernel/fs/vfs.c:164-171 | the answer depends on the path alone if and only if the scan finds the directory or the root is asked for |
| Vfs.LookUpFullPath | kernel/fs/vfs.c:164-234 | looking up the full path built in the buffer gives the entry back, from any working directory and whatever the name buffer held |

## Left out

- Canary bytes and other contents of heap blocks: callers are taken to stay inside their blocks.
- rb_validate: a debugging walk; only its fault on an empty tree is in the model.
- More than one heap pool: the kernel attaches one.
- Several harts at once and memory barriers: kernel_main keeps every hart but 0 in an endless loop.
- TLB flushes, CSR writes and device registers: hardware effects.
- Paging.Paging.PageAlloc: picks any free frame, because which one the buddy allocator returns does not matter to the tables; `BuddyRuns.OnePageFails` is the link.
- Paging.Paging.MapPages: needs a size above zero, a type that is readable or executable, and addresses outside the kernel's gigabyte, which the walk does not recognise as a leaf.
- Paging.Paging.UnmapPages: for ranges of mapped user pages; a missing page is a panic in the source.
- Paging.Paging.VmCopy: for ranges the source maps with user pages and the target does not map; anything else is a panic in the source. What a panic leaves behind is not described.
- Buddy.Allocator.PageFree: for blocks that are in use and aligned to their order; the source does not look.
- Kmem.Pool.Kfree: for pointers to blocks in use; the canary and type checks of the source are panics.
- Vfs.GetParentDentry: for paths whose components are shorter than 32 characters, the size of the name buffers; the source does not check.
- Vfs.GetDentry: for the same paths.
- Vfs.FullPath: for paths shorter than the 128-byte buffer, which the source does not check, and with the buffer allocated.
- Kmem.Pool.constructor: for aligned pools with room for a block, below 4 GiB; init_memory attaches 1 to 256 whole pages.
- Fat.GetNextClus: for clusters with an entry on the disk.
- mem_sysmap: one map_pages on the kernel directory.
- Loading of programs (kernel/proc/execve.c, kernel/lib/elf.c): one step that maps a fresh page.
- kernel/proc/brk.c and kernel/proc/exit.c: do_exit makes its parent ready whatever it waits for, which the pipe and disk models admit as a spurious wakeup.
- Scheduler.ProcTable.Schedule: takes the last scheduled process to be still on the list; do_wait does not clear the pointer when it frees that process.
- Fat.Read: needs an offset within the file and below the last cluster under 4 GiB; beyond the file size the length computation wraps.
- bio_read, bio_write, FAT writes, directory scanning and long names.
- Lookups that call into a file system: the path model covers entries in memory and treats a missing one as not found.
- VfsSpec.ResolveFirst: for a rest that is not empty and does not begin with a slash; with a doubled or trailing slash the scan drops a component.
- The file mode checks of pipe_read and pipe_write.
- Device queue set-up and the sector rounding of virtio_disk_read and virtio_disk_write.
