# Proofs about a small RISC-V kernel

A Dafny model of the storage, memory, process and device code of an xv6-style
kernel, with proofs of the properties its parts rely on. Shifts and masks of
the original are divisions and remainders here, unsigned wrap-around and
truncation are written out where they can happen, and a panic or a missing
table page is a result of the operation, not a precondition.

## Layout

| files | kernel code | contents |
|---|---|---|
| `Sv39`, `PhysMem`, `VMem`, `Frames`, `UserHeap`, `Fork`, `UserCopy`, `Teardown`, `Space`, `BrkLeak` | `kernel/mem`, `sys_brk` | Sv39 page tables in pages of two free lists; one `Memory` object |
| `Bitmap`, `BlockTree`, `BlockSteps`, `InodeBlocks`, `FileData`, `FreeTree` | `kernel/fs/inode.c`, `bitmap.c` | files as byte sequences over trees of blocks; one `Disk` object |
| `BufList`, `BufCache` | `kernel/fs/buf.c` | the buffer cache and its linked list |
| `Virtqueue`, `Virtio` | `kernel/dev/virtio.c` | the virtqueue as a machine, and the driver loops that take its steps |
| `ProcTable`, `Fairness`, `Kernel` | `kernel/proc/proc.c`, tick handlers | the process machine, what it promises, and the loops that take its steps |
| `InodeCache`, `Dir`, `Path`, `LinkCount`, `PathWalk`, `PathEffects`, `FileTree`, `PathPanics` | `kernel/fs/dir.c`, inode cache of `inode.c` | directories as maps, paths as folds, link counts, and the operations on paths with their slots, references and locks |
| `Files`, `FilePanics` | `kernel/fs/file.c`, `sysfile.c` | open files and descriptors, over the operations on paths |

Code that changes state is modelled by classes whose methods are the original
loops and stores; each is proved against functions and predicates on values,
and the lemmas are about those. Ghost fields name things (which table or tree
block a page or disk block is, which request a descriptor belongs to), so that
distinctness and conservation are facts about one map and not about pairs of
trees.

## Assumptions

- One CPU, and kernel sections that run with interrupts off are one step each.
- Writes start at or before the end of the file, `offset + len` stays below
  2^32, enough data blocks are free, and free data blocks read as zero. The
  image builder makes the last one true (`FileData.FreshVolume`) and allocation
  keeps it; releasing a file keeps it exactly when the file has at most ten
  data blocks and all their bytes are 0 (`FreeTree.ReleaseLeavesBytes`).
- Bit 0 of the data bitmap is set (the root directory has that block).
- The root inode is referenced: `fs_init` takes a reference and keeps it.
  What happens without it is `InodeCache.Cache.TakeAndGive`.
- Two requests under way at the disk are for different buffers and blocks,
  which the buffer cache guarantees; a buffer is changed only under its lock
  and written back before it is released.
- The device completes requests successfully and only those it has taken.

## Findings

Each has the exact condition and an input that shows it.

- `sys_brk` passes a 64-bit length as 32 bits. A growth of 2^32 or more maps
  the truncated length and then reports failure, which leaves pages mapped
  above the heap top (`UserHeap.SysBrk`, `BrkLeak.GrowPast4GiB`).
- `sys_brk` does not look at the stack. A growth that comes above the first
  stack page succeeds, replaces the stack's entries and loses their frames, and
  a growth that stays below it loses none (`UserHeap.StackOverrun`,
  `BrkLeak.GrowIntoStack`).
- `sys_dup` takes a reference before it looks at whether a descriptor was
  found, so a failed call leaves a file open for ever (`Files.Table.Dup`,
  `Files.LeakedStaysOpen`, `FilePanics.DupLeaks`).
- `path_unlink` of the last name of an inode that nobody else references, which
  includes every empty directory that is not open, ends in the assertion of
  `inode_lock`: `inode_free` has dropped the last reference before
  `inode_destroy` locks the inode (`FileTree.Fs.Unlink`,
  `FileTree.EmptyDirIsLast`, `PathPanics.LastNameGoes`). When the inode is open,
  `path_unlink` succeeds, and the last `file_close` ends in that assertion, in
  `sys_close` as in the release of an exiting process (`FileTree.Fs.Put`,
  `Files.Table.Close`, `Files.Table.FreeFiles`, `FilePanics.CloseUnlinked`).
- `inode_free` decides by the link count in memory even for an inode that was
  never read (`InodeCache.Cache.TakeAndGive`, `InodeCache.NeverLoaded`). The one
  caller that comes there unlocked is a search for the parent of a path without
  components, and there the reference that `fs_init` keeps prevents the panic
  (`FileTree.Fs.Search`).
- `path_link` panics when a proper prefix of the new path leads to the file to
  be linked, `path_create_inode` when the parent directory is full, and every
  walk when 32 inodes are referenced and it needs another one
  (`PathWalk.WalkIs`, `FileTree.Fs.Link`, `FileTree.Fs.Create`,
  `PathPanics.LinkThroughItself`, `PathPanics.FullParent`,
  `FilePanics.NoSlotLeft`).
- With bit 0 of a bitmap clear the search releases its buffer and scans on. It
  panics in `buf_write` at the next clear bit, or in the second `buf_release`
  when there is none (`Bitmap.SearchAndSet`, `Bitmap.BitZeroClear`).
- A page that is freed twice makes its free list go round
  (`PhysMem.DoubleFree`).

## Model

| member | source | states |
|---|---|---|
| Sv39.PteRoundTrip | include/mem/vmem.h:48-65 | encoding an address and permissions into an entry and decoding it gives the address back exactly when it is page aligned, and the permissions with V set; the entry is a leaf exactly when R, W or X was asked for |
| Sv39.PteDecodeEncode | include/mem/vmem.h:48-65 | decoding a valid entry and encoding it again is the identity exactly when its top two bits are clear |
| Sv39.VaDigits | include/mem/vmem.h:43-45 | the three shifted-and-masked index fields of an address are the base-512 digits of its page number |
| Sv39.DigitsOf | include/mem/vmem.h:43-45 | a page number is the number its three digits write |
| Sv39.VpnTripleDeterminesPage | include/mem/vmem.h:43-45 | two legal addresses have the same three index fields if and only if they are in the same page |
| PhysMem.Memory.constructor | kernel/mem/pmem.c:3-38 | after pmem_init both lists run through their whole region in address order, and every page is free in exactly one pool |
| PhysMem.Memory.Alloc | kernel/mem/pmem.c:39-52 | a pool hands out the first page of its list, or NULL exactly when its count is 0; the other pool and every page keep their state |
| PhysMem.Memory.Release | kernel/mem/pmem.c:53-65 | a page in use, of either pool, becomes the first page of the named list; no other page changes |
| PhysMem.PoolsConserve | kernel/mem/pmem.c:39-65 | free pages of both pools and owned pages are disjoint, together exactly the initial pages, and the counts are the list lengths |
| PhysMem.PopKeeps | kernel/mem/pmem.c:47-49 | taking the first page off a list leaves a linked list through exactly the remaining free pages |
| PhysMem.PushKeeps | kernel/mem/pmem.c:60-63 | putting an owned page in front of a list leaves a linked list through exactly the free pages and it |
| PhysMem.DoubleFree | kernel/mem/pmem.c:53-65 | pmem_free leaves a region a finite linked list if and only if the page was not on it already; a second free makes the links go round |
| PhysMem.OwnedPagesChange | kernel/mem/pmem.c:39-65 | changing what owned pages hold or are used for never disturbs the free lists |
| VMem.WalkIsNamed | kernel/mem/vmem.c:18-37 | in a well-formed tree the stored words lead to the table named for the page number, level by level, or nowhere when there is none |
| VMem.WalkIs | kernel/mem/vmem.c:18-37 | the walk is three words at the three index fields of the address, the first two with V set, each leading to the page its number field names |
| VMem.TablesAreDistinct | kernel/mem/vmem.c:18-37 | two tables of any two spaces or levels are different pages |
| VMem.OtherPagesKeep | kernel/mem/vmem.c:6-67 | writes to pages that are no tables change no translation and no tree |
| VMem.WriteLeaf | kernel/mem/vmem.c:50-50 | a store into the leaf slot that a walk leads to changes exactly that translation of that space and keeps all trees |
| VMem.Linked | kernel/mem/vmem.c:27-33 | linking a zeroed page as an interior table keeps every translation, every tree and both pools |
| VMem.VmGetPte | kernel/mem/vmem.c:6-38 | with alloc: the slot of the leaf table for the address, exactly as many kernel pages taken as tables were missing, no translation changed; it stops only for an illegal address or an empty kernel pool |
| VMem.LookUp | kernel/mem/vmem.c:6-38 | without alloc: the slot and the word that the hardware walk finds, NULL exactly when there is no leaf table |
| VMem.VmMapPages | kernel/mem/vmem.c:40-52 | exactly the pages that begin at a distance below len from the page of va are mapped, each to the frame at that distance from pa, with the permissions and V; every other page of every space translates as before, and only tables of this space were taken |
| VMem.VmUnmapPages | kernel/mem/vmem.c:53-67 | it ends well if and only if every page that begins at a distance below len is mapped, and then exactly those are cleared; else the pages before the first unmapped one are, which is where the panic is |
| Frames.FramesAreDistinct | kernel/mem/uvm.c:113-268 | two mapped user pages share a frame if and only if they are the same page of the same space, and no frame is a table or free |
| Frames.MapFrame | kernel/mem/vmem.c:40-52 | mapping a held page as a user page makes exactly that translation and records the frame as owned by it; a frame that the page had before is owned by nobody afterwards, and only then is one lost |
| Frames.UnmapFrame | kernel/mem/uvm.c:259-264 | a mapped page loses its translation and its frame becomes the first free user page; an unmapped one changes nothing |
| Frames.FreshMemory | kernel/mem/pmem.c:3-38 | the memory that pmem_init leaves satisfies the invariant of all spaces, so runs start there |
| UserHeap.UvmHeapGrow | kernel/mem/uvm.c:207-240 | for any range below the trapframe page, in byte addresses: after a success every page that starts in the new range has the flags V, R, W and U and a frame of zeros that was free, no other page of any space has changed, and a heap that was mapped up to its top is mapped up to the new top; the outcome depends on the number of free user pages alone, and where nothing was mapped before it is all or nothing |
| UserHeap.RollBack | kernel/mem/uvm.c:219-229 | undoing the pages already grown leaves the translations, frames and free user pages of the start |
| UserHeap.UvmHeapUngrow | kernel/mem/uvm.c:244-268 | a page loses its translation exactly when it starts between the new and the old top, its frame returns to the user pool, no other translation changes, and what was mapped below the new top still is; the new top is clipped at 0 |
| UserHeap.PagesOfGrowth | kernel/mem/uvm.c:213-217 | a growth takes as many frames as pages start in its range of addresses |
| UserHeap.ShrunkTopIs | kernel/mem/uvm.c:246-251 | the unsigned wrap test is the clip at 0 for every 32-bit length |
| UserHeap.GrowThenShrinkRestores | kernel/mem/uvm.c:207-268 | what a growth and the cut of the same pages leave: every translation, the set of free user pages and every other frame with its bytes |
| UserHeap.GrowThenShrink | kernel/mem/uvm.c:207-268 | for any heap top, aligned or not, and any length below 2^32: uvm_heap_grow followed by uvm_heap_ungrow with the same length gives the old top back and restores every translation, the free user pages and the bytes of every frame |
| UserHeap.BrkArithmetic | kernel/syscall/sysfunc.c:33-38 | the truncated 32-bit length reaches the new break if and only if the growth is below 2^32 |
| UserHeap.BrkOutcome | kernel/syscall/sysfunc.c:33-49 | what a grow request leaves: on success the new top; on failure the gap above the heap is empty if and only if the growth was not a truncated one that could be mapped |
| UserHeap.SysBrk | kernel/syscall/sysfunc.c:25-66 | a growth succeeds exactly when it is under 2^32 and the user pool has its pages, whether or not the stack is in the way; a shrink always does, at the requested top exactly when it is under 2^32; below the stack nothing is mapped between the rounded heap top and the stack afterwards, except exactly for a growth of 2^32 or more whose truncated length maps pages |
| UserHeap.StackOverrun | kernel/syscall/sysfunc.c:31-49 | what a growth does to the stack: the frame of a page is lost if and only if the page is mapped and among those the growth reaches; some frame is lost if and only if the growth reaches past the first stack page |
| UserHeap.BrkRun | kernel/syscall/sysfunc.c:25-66 | over every run of calls whose lengths stay under 2^32 and whose tops stay below the stack, nothing is mapped between the rounded heap top and the stack, and a heap whose bytes were all mapped keeps them all mapped; the run ends early only at a call that breaks one of the two bounds, or without kernel pages for tables |
| BrkLeak.GrowPast4GiB | kernel/syscall/sysfunc.c:31-49 | asking a fresh space for 2^32 + 4096 bytes fails and leaves a page mapped above the heap top |
| BrkLeak.GrowIntoStack | kernel/syscall/sysfunc.c:31-49 | growing a space whose stack is page 4 to five pages succeeds and loses the frame of the stack page |
| Fork.UvmCopyPgtbl | kernel/mem/uvm.c:113-176 | for every address below the heap top and on the copied stack pages: a page that is mapped in the parent is mapped in the child with the same flags, on a frame that was free, with the same bytes, and one that is not mapped is not mapped in the child; no other page of any space changes |
| Fork.CopyOne | kernel/mem/uvm.c:125-138 | one round of the copy adds exactly one finished page |
| Fork.CopyHere | kernel/mem/uvm.c:122-138 | the page copied in a round has the bytes and flags of the parent page on a frame that was free |
| UserCopy.UvmCopyIn | kernel/mem/uvm.c:272-309 | for any alignment and length byte i of the buffer is the byte at the translation of src+i; it stops exactly when some page of the range is unmapped |
| UserCopy.UvmCopyOut | kernel/mem/uvm.c:312-349 | all or panic: it succeeds exactly when the whole range is mapped, and then exactly the bytes of the range in this space change |
| UserCopy.CopyOutThenIn | kernel/mem/uvm.c:272-349 | what was copied out reads back |
| UserCopy.UvmCopyInStr | kernel/mem/uvm.c:354-403 | with maxlen above 0 the buffer gets the source up to its NUL, or maxlen-1 bytes and a NUL; it stops exactly at an unmapped page before that |
| UserCopy.ForkedAlike | kernel/mem/uvm.c:113-172 | after a fork the child reads at every mapped address below the heap top and on the copied stack pages what the parent read, and maps no others of them |
| UserCopy.StoresRefineSpaces | kernel/mem/uvm.c:312-349 | over any run of copyouts through any page tables a space reads at every mapped address what its own copies stored last, or what was there at the start: each space is a byte memory of its own |
| UserCopy.ForkIsolation | kernel/mem/uvm.c:113-349 | after a finished uvm_copy_pgtbl, any run of copyouts that goes through other tables leaves the child reading what the parent read at the fork, and the parent reading the same |
| Teardown.DestroyPgtbl | kernel/mem/uvm.c:67-84 | the recursion frees exactly the tables and frames below one table and the table itself, each once, into the user pool; it ends by the height of the tree, whatever level says |
| Teardown.UvmDestroyPgtbl | kernel/mem/uvm.c:87-110 | every table of the space and every frame of a mapped page below the trapframe becomes a free user page, and nothing but those does; every other page keeps its contents, and all other spaces translate as before |
| Teardown.WholeRegion | kernel/mem/uvm.c:67-84 | what lies below a table and the table are everything its range owns, with no page counted twice |
| Space.NewRoot | kernel/proc/proc.c:194-196 | a fresh zeroed root page is a space with no translation, and all other spaces are as before |
| Space.ProcPgtblInit | kernel/proc/proc.c:191-208 | a new space maps the trampoline and the trapframe pages with their permissions and nothing below them |
| Bitmap.SetOne | kernel/fs/bitmap.c:18-18 | or-ing in a mask and and-ing it out add and remove exactly one bit number |
| Bitmap.BitIs | kernel/fs/bitmap.c:13-18 | bit number n is binary digit n mod 8 of byte n / 8 |
| Bitmap.SearchAndSet | kernel/fs/bitmap.c:9-34 | with bit 0 set it takes the least clear bit and reports full exactly when there is none; with bit 0 clear it takes and writes bit 0, releases its buffer and scans on: it then panics in buf_write exactly when another bit is clear, and in the second buf_release exactly when none is |
| Bitmap.BitZeroClear | kernel/fs/bitmap.c:13-33 | an empty bitmap ends in the panic of buf_write, one with only bit 0 clear in that of buf_release |
| Bitmap.Unset | kernel/fs/bitmap.c:37-58 | clears exactly the given bit; bit 0 and numbers past the block change nothing |
| Bitmap.AllSetMeansFull | kernel/fs/bitmap.c:13-33 | a search that finds nothing means all 8192 bits are in use |
| BlockTree.OneParent | kernel/fs/inode.c:212-265 | the index arithmetic of the pointers is injective: no two slots stand for the same tree block |
| BlockTree.TopIsNoChild | kernel/fs/inode.c:237-265 | a block under an address of the inode is never also a child of an index block |
| BlockTree.TreesAreDisjoint | kernel/fs/inode.c:212-265 | two tree blocks of any files never share a disk block; all lie in the data area above bit 0, with their bit set and apart from the reserved ones |
| BlockTree.TreeBlocksStep | kernel/fs/inode.c:212-265 | appending a data block adds exactly the data and index blocks that start at its index |
| BlockSteps.Place | kernel/fs/inode.c:214-215 | taking a free zeroed block for a missing entry keeps the trees, with that block still to be linked |
| BlockSteps.Link | kernel/fs/inode.c:225-229 | writing the index block back after its child was located links exactly that child and keeps all trees |
| BlockSteps.Finish | kernel/fs/inode.c:242-262 | storing the address in the inode completes the new data block: all trees are well formed again |
| InodeBlocks.Disk.AllocBlock | kernel/fs/bitmap.c:60-68 | the least free block number of the data area, or 0 exactly when all bits are set |
| InodeBlocks.Disk.Locate | kernel/fs/inode.c:212-232 | below a tree block the recursion returns the named data block; an existing one changes nothing, the next one adds exactly the missing blocks on its path and leaves it zeroed |
| InodeBlocks.Disk.LocateBlock | kernel/fs/inode.c:237-265 | over direct, single and double indirect blocks: an index of the file returns its block and changes nothing, the next index grows this file by one block and takes exactly the data and index blocks that start there |
| InodeBlocks.EntryTells | kernel/fs/inode.c:214-215 | a stored entry is 0 exactly when the block it stands for does not exist yet |
| InodeBlocks.SameBlock | kernel/fs/inode.c:226-229 | the write-back of an index block in which nothing was new stores what was there |
| FileData.ChaseIs | kernel/fs/inode.c:212-265 | following the pointers stored on disk leads to the named block for every index below the block count: locating is stable and injective |
| FileData.ContentsAt | kernel/fs/inode.c:267-307 | the byte sequence of a file read through its stored pointers is the one the invariant speaks about |
| FileData.WriteChunk | kernel/fs/inode.c:322-343 | one block of a write changes exactly the bytes in its range of this file, and no byte of any file otherwise, new blocks included |
| FileData.WriteData | kernel/fs/inode.c:312-353 | a dense write, byte by byte: the range holds the source bytes, every other byte of the file what it held, the size is the larger of the two ends, every other file and every reserved block is unchanged, and exactly blocks(new size) - blocks(old size) bits are taken; past the largest size it returns 0 and changes nothing |
| FileData.ReadData | kernel/fs/inode.c:270-307 | as many bytes as were asked for, or as there are up to the end of the file; byte i is byte offset + i of the file; no block, bit or inode changes |
| FileData.ReadYourWrite | kernel/fs/inode.c:270-353 | what a read after a write returns: the written range gives the bytes written, and a range before or after it what it gave before |
| FileData.WritesRefineSplices | kernel/fs/inode.c:312-353 | after any run of dense writes to any files every file holds what the same writes leave on plain byte sequences |
| FileData.FreshVolume | mkfs/mkfs.c:304-330 | the disk that the image builder leaves satisfies the invariant of all files, which are empty: runs start there |
| FileData.DenseIs | kernel/fs/inode.c:267-353 | a file has a data block for each 1024 bytes of its size begun, and no other |
| FreeTree.FreeBlock | kernel/fs/bitmap.c:70-78 | exactly one bit is cleared, none for numbers before the data area |
| FreeTree.DataFree | kernel/fs/inode.c:356-375 | the recursion clears exactly the bits of the block and everything below it |
| FreeTree.NothingPast | kernel/fs/inode.c:367-367 | past an absent block of a dense file there is nothing: why the first 0 entry may end the loop |
| FreeTree.FreeData | kernel/fs/inode.c:380-407 | exactly the blocks of this file become free, their number is its data and index blocks, the inode is empty, and every other file keeps its bytes |
| FreeTree.FileHolds | kernel/fs/inode.c:212-265 | a dense file of n data blocks holds exactly n data blocks and the index blocks they need |
| FreeTree.BlocksAreConserved | kernel/fs/bitmap.c:9-78 | in every state the bits in use are the reserved ones and the blocks of all files, each counted once |
| FreeTree.ReleaseLeavesBytes | kernel/fs/inode.c:356-407 | releasing a file keeps all free blocks reading as zero if and only if it has at most ten data blocks and every byte of them is 0 |
| FreeTree.IndexBlocksStayDirty | kernel/fs/inode.c:356-407 | the first index block of a file of more than ten blocks never reads as zero |
| InodeCache.Cache.Alloc | kernel/fs/inode.c:64-90 | an inode with a slot gets one more reference there and nothing else changes; else the first slot without references becomes its slot, unread, with what was in memory; the panic comes exactly when all 32 slots are referenced by other inodes; locked slots stay as they are |
| InodeCache.Cache.Lock | kernel/fs/inode.c:182-192 | after taking the lock memory holds what is on disk, the references are as before |
| InodeCache.Cache.Free | kernel/fs/inode.c:155-169 | one reference less; the path into inode_destroy, whose assertion fails, is taken exactly when it was the last one and the link count in memory is 0 |
| InodeCache.Cache.UnlockFree | kernel/fs/inode.c:202-206 | for a locked inode that was written back the panic comes exactly with the last reference to an inode whose count on disk is 0 |
| InodeCache.Cache.TakeAndGive | kernel/fs/inode.c:64-169 | an inode taken and given back unlocked runs into the assertion of inode_lock if and only if nobody else references it and the slot it gets has link count 0 in memory |
| InodeCache.RefsAre | kernel/fs/inode.c:64-90 | the referenced slots are a map from inode numbers to counts; all 32 slots are referenced exactly when the map has 32 inodes |
| InodeCache.LoadedFreesCleanly | kernel/fs/inode.c:155-169 | for a loaded inode the count that decides is the one on disk |
| InodeCache.NeverLoaded | kernel/fs/inode.c:155-169 | on a fresh cache that is the panic for every inode, whatever its links on disk |
| Virtqueue.RunsAreSafe | kernel/dev/virtio.c:121-281 | the whole invariant of descriptors, rings, buffers and completions holds in every state of every run, for every completion order the device chooses |
| Virtqueue.SubmitKeeps | kernel/dev/virtio.c:199-249 | writing and posting a chain from three free descriptors keeps the invariant |
| Virtqueue.CompleteKeeps | kernel/dev/virtio.c:231-241 | a device completing any request it has taken keeps the invariant |
| Virtqueue.ProcessKeeps | kernel/dev/virtio.c:266-277 | a round of the interrupt keeps the invariant |
| Virtqueue.ReapKeeps | kernel/dev/virtio.c:252-257 | a caller returning and freeing its chain keeps the invariant |
| Virtqueue.DescriptorsArePartitioned | kernel/dev/virtio.c:121-176 | a descriptor is free exactly when no chain holds it; chains are three distinct descriptors and disjoint |
| Virtqueue.ThreeAreTooMany | kernel/dev/virtio.c:188-197 | at most two requests are under way |
| Virtqueue.IndicesAreExact | kernel/dev/virtio.c:247-276 | the modulo-8 comparison of the interrupt is exact, and ring positions are right across the 16-bit wrap |
| Virtqueue.SubmitKeepsPendingSlots | kernel/dev/virtio.c:247-249 | a submission never overwrites an available-ring entry that the device has still to take |
| Virtqueue.InterruptSees | kernel/dev/virtio.c:266-275 | the interrupt only sees ids of requests that completed, with their buffer set and status 0, in completion order |
| Virtqueue.ReturnsAfterOwnCompletion | kernel/dev/virtio.c:252-257 | a caller goes on only after its own completion was processed, and its buffer then agrees with the medium |
| Virtqueue.OneCompletionEach | kernel/dev/virtio.c:188-281 | every request has at most one completion, exactly one once it left, and one that was processed exactly when it may return |
| Virtqueue.SomethingCanHappen | kernel/dev/virtio.c:188-281 | no request is stuck: the device, the interrupt or its caller can take the next step |
| Virtqueue.AllFreeWhenIdle | kernel/dev/virtio.c:189-197 | with nothing under way all eight descriptors are free |
| Virtqueue.DeviceSees | kernel/dev/virtio.c:205-243 | along the chain of a request the device reads its type and the 32-bit product 2 * block, the buffer with the write flag exactly for a read, and a status byte to write |
| Virtqueue.TakesInOrder | kernel/dev/virtio.c:247-251 | the device takes the requests in the order of their submission |
| Virtqueue.DataArrives | kernel/dev/virtio.c:188-257 | over every run: once a write has completed, the medium holds at its place what the buffer held at the submission; once a read has, the buffer holds what the medium held there |
| Virtio.Driver.constructor | kernel/dev/virtio.c:54-119 | initialisation leaves all descriptors free and both rings empty |
| Virtio.Driver.AllocDesc | kernel/dev/virtio.c:122-133 | the first free descriptor, or -1 exactly when there is none |
| Virtio.Driver.FreeDesc | kernel/dev/virtio.c:136-146 | a descriptor in use becomes free; a panic and no change exactly for a free one and for numbers past the last |
| Virtio.Driver.Alloc3 | kernel/dev/virtio.c:163-176 | three distinct descriptors exactly when three are free; otherwise the free set is as before |
| Virtio.Driver.Request | kernel/dev/virtio.c:188-249 | with three free descriptors these become a chain of type and sector, buffer and status byte, the buffer is marked as waiting, and the head is the next entry of the available ring; with fewer nothing but a failed allocation; each a step of the machine |
| Virtio.Driver.Interrupt | kernel/dev/virtio.c:262-281 | every completion there is gets processed: exactly the completed requests are done and exactly their buffers stop waiting, as steps of the machine, in order |
| Virtio.Driver.Finish | kernel/dev/virtio.c:256-257 | the three descriptors of the chain are free again, the request is gone, and the buffer agrees with the medium |
| Virtio.Driver.FreeChain | kernel/dev/virtio.c:150-160 | following the links frees exactly the three descriptors of the chain |
| ProcTable.RunsAreSafe | kernel/proc/proc.c:319-584 | the process invariant holds in every state of every run of fork, exit, wait, sleep, wakeup, yield, ticks and scheduling |
| ProcTable.ForkKeeps | kernel/proc/proc.c:319-367 | fork keeps the invariant, with or without a free slot and memory |
| ProcTable.ExitKeeps | kernel/proc/proc.c:445-468 | exit keeps the invariant: children go to proczero, which is woken, and the parent is woken before the process is a zombie |
| ProcTable.WaitKeeps | kernel/proc/proc.c:380-420 | a scan of wait keeps the invariant |
| ProcTable.ScheduleKeeps | kernel/proc/proc.c:506-537 | a scheduling decision keeps the invariant |
| ProcTable.TickKeeps | kernel/trap/trap_kernel.c:106-198 | a timer tick with the time-slice check keeps the invariant |
| ProcTable.ProczeroFirst | kernel/proc/proc.c:319-433 | proczero has the smallest pid of all processes |
| Fairness.RootedAtProczero | kernel/proc/proc.c:358-433 | following parents from any process ends at proczero |
| Fairness.NoCycle | kernel/proc/proc.c:358-433 | a proper ancestor is alive, has a smaller pid and is never the process itself |
| Fairness.SleepersHaveNoZombie | kernel/proc/proc.c:380-468 | no lost wakeup: a process asleep in wait has no zombie child |
| Fairness.ExitWakesParent | kernel/proc/proc.c:445-468 | after exit the parent is alive, not asleep in wait, and finds the zombie with its status |
| Fairness.ReapsTheTruth | kernel/proc/proc.c:396-406 | each exit status is handed over at most once, is what was passed to exit, and its pid is not in the table any more |
| Fairness.WaitOutcome | kernel/proc/proc.c:387-418 | wait reaps exactly when there is a zombie child, which it frees and reports to the caller, fails exactly without children, and sleeps otherwise |
| Fairness.PickComesNearer | kernel/proc/proc.c:509-524 | the pick is the first runnable process cyclically after the last one, and everyone who waits comes strictly nearer |
| Fairness.WaitShrinks | kernel/proc/proc.c:493-543 | no step makes the wait of a runnable process longer; a charged tick or a pick makes it shorter |
| Fairness.BoundedWaiting | kernel/proc/proc.c:493-543 | while a process is runnable and not picked, fewer than 64 picks are made and fewer than 640 ticks are charged to others |
| Fairness.OnlyPickingEndsWaiting | kernel/proc/proc.c:493-584 | a runnable process stays so until it is picked, and then runs with a full slice |
| Fairness.SleeperWakes | kernel/proc/proc.c:547-584 | over every run: a process that goes to sleep on a channel other than a process is runnable after the next wakeup of that channel |
| Fairness.FullTurn | kernel/proc/proc.c:520-532 | over every run: a picked process that does not give up the CPU runs until the tenth tick after the pick, and is runnable then |
| Kernel.Table.Wakeup | kernel/proc/proc.c:571-584 | every process but the current one that is asleep on the channel becomes runnable and is otherwise as before, and no other entry changes |
| Kernel.Table.Reparent | kernel/proc/proc.c:423-433 | exactly the children get proczero as parent, and proczero is woken if there is one |
| Kernel.Table.Exit | kernel/proc/proc.c:445-468 | the caller becomes a zombie with its status; its children are proczero's; a process is woken exactly when it is the parent asleep in wait, or proczero asleep in wait and there was a child; nothing else changes; for proczero the panic and no change |
| Kernel.Table.Alloc | kernel/proc/proc.c:37-149 | the first unused slot with the next pid; without memory the slot is free again and the pid used up; the assertion of alloc_pid fails exactly when the 32-bit counter has passed its largest value |
| Kernel.Table.Fork | kernel/proc/proc.c:319-367 | the first unused slot becomes a runnable child of the caller with the next pid and a full slice and no other entry changes, or -1 and no used entry changes; the panic of alloc_pid changes nothing |
| Kernel.Table.Wait | kernel/proc/proc.c:380-420 | a zombie child is freed and its pid and status reported; without children nothing changes; else the caller sleeps on itself |
| Kernel.Table.Sleep | kernel/proc/proc.c:547-558 | the caller sleeps on the channel and leaves the CPU |
| Kernel.Table.Yield | kernel/proc/proc.c:370-377 | the caller is runnable and off the CPU, and no other entry changes; the invariant stays |
| Kernel.Table.Tick | kernel/trap/trap_user.c:127-139 | one tick is charged to the current process; it keeps the CPU, or with its last tick becomes runnable with a full slice; no other entry changes |
| Kernel.Table.Schedule | kernel/proc/proc.c:506-537 | it finds nobody exactly when nobody is runnable; else the runnable process that comes first after the last one picked, round to the start, runs with a full slice and no channel, and no other entry changes |
| BufList.UnlinkOk | kernel/fs/buf.c:27-30 | the two stores that take a node out leave one consistent ring through the others |
| BufList.FrontOk | kernel/fs/buf.c:33-37 | the four stores that put a node behind the head leave one consistent ring with it first |
| BufList.BackOk | kernel/fs/buf.c:38-43 | the four stores that put a node before the head leave one consistent ring with it last |
| BufCache.Cache.constructor | kernel/fs/buf.c:47-65 | after buf_init the 64 nodes form one ring and none is referenced |
| BufCache.Cache.InsertHead | kernel/fs/buf.c:24-44 | the node leaves its place, if it has one, and is first or last; every other node keeps its order |
| BufCache.Cache.Read | kernel/fs/buf.c:73-111 | a hit gives the buffer one more reference and leaves the list; a miss takes the last node, fills it with what the disk holds for the block and moves it to the front, the others in their order; failure happens exactly when no buffer has the block and all 64 are referenced |
| BufCache.Cache.Resume | kernel/fs/buf.c:82-83 | a caller that waited for the lock finds what the disk holds |
| BufCache.Cache.Write | kernel/fs/buf.c:114-121 | the write-back updates the map at exactly this block |
| BufCache.Cache.Release | kernel/fs/buf.c:124-145 | one reference less and no lock; the last one also gives up the block number and moves the node to the end of the list, the others in their order; no other buffer changes |
| BufCache.PrefixIsInUse | kernel/fs/buf.c:18-145 | the referenced nodes are exactly a prefix of the list, and a miss fails only when the prefix is everything |
| BufCache.ReleaseSplits | kernel/fs/buf.c:135-142 | moving a released node to the end keeps referenced nodes before unreferenced ones |
| BufCache.MissSplits | kernel/fs/buf.c:101-104 | moving a newly used node to the front keeps referenced nodes before unreferenced ones |
| BufCache.WriteKeeps | kernel/fs/buf.c:114-121 | a write-back leaves every other referenced buffer in agreement with the disk |
| Dir.TextIs | kernel/lib/string.c:61-81 | a 30-byte field holds a C string exactly when it starts with it and a NUL follows |
| Dir.SameName | kernel/lib/string.c:61-68 | the bounded comparison says whether the field holds exactly that name |
| Dir.PutName | kernel/lib/string.c:70-81 | the bounded copy stores the name, cut to 29 characters |
| Dir.EntriesHas | kernel/fs/dir.c:17-38 | the entries stand for a map: a name is in it exactly when some used entry carries it |
| Dir.LookupIs | kernel/fs/dir.c:17-38 | a lookup finds a number exactly when some used entry has the name and the number, and nothing exactly when no used entry has the name |
| Dir.AtMostSlots | kernel/fs/dir.c:10-11 | a directory has at most 32 names |
| Dir.LiveCount | kernel/fs/dir.c:111-138 | there are as many used entries as names |
| Dir.LiveAt | kernel/fs/dir.c:111-138 | a used entry comes in the listing after as many entries as are used before it |
| Dir.Directory.Search | kernel/fs/dir.c:17-38 | the number the map has for the name, or 0xFFFF exactly when it has none |
| Dir.Directory.Add | kernel/fs/dir.c:44-76 | the map gets exactly this name, in the first free entry; refused exactly for a name of 30 or more characters, a taken name or a full directory, with no change |
| Dir.Directory.Delete | kernel/fs/dir.c:82-106 | the map loses exactly this name and its number is returned, or 0xFFFF and no change |
| Dir.Directory.GetEntries | kernel/fs/dir.c:111-138 | as many entries as are used, or as fit; a used entry with n used entries before it is number n of the listing, when that many fit |
| Path.SkipElement | kernel/fs/dir.c:189-209 | the path is slashes, the first field, slashes and the rest: the name is the field, cut to 29 characters when it has 30 or more, and the rest has exactly the remaining fields; nothing exactly when the path is slashes only |
| Path.FieldsOf | kernel/fs/dir.c:194-205 | characters up to the next slash are one field |
| Path.ComponentsStep | kernel/fs/dir.c:189-209 | slashes, a field without slashes and a rest that is empty or starts with a slash: the components are the field, cut to 29 characters when it has 30 or more, and those of the rest |
| Path.NoComponents | kernel/fs/dir.c:191-193 | a path has no components exactly when it is slashes only, and any other path has a first field |
| Path.JoinedBack | kernel/fs/dir.c:189-209 | joining non-empty names without slashes and shorter than 30 characters with slashes gives a path whose components are these names |
| Path.ComponentsOk | kernel/fs/dir.c:189-209 | components are non-empty, shorter than 30 characters and without NUL |
| PathWalk.WalkIs | kernel/fs/dir.c:214-262 | a walk panics if and only if a proper prefix of the path leads to an inode whose lock is held, or 32 inodes are referenced and a prefix leads to another one; otherwise it finds the fold of lookups over the components |
| PathWalk.InodeByParent | kernel/fs/dir.c:214-276 | for any path with a component, path_to_inode is the entry of the last component in the directory that path_to_pinode finds |
| PathWalk.PathIs | kernel/fs/dir.c:214-276 | the parent of a path is what the path before its last component leads to, exactly when that is a directory, whether or not the last component has an entry there; the path leads to that entry's inode, exactly when there is one |
| PathWalk.LookStays | kernel/fs/dir.c:214-262 | a path leads to an existing inode, and a parent is a directory |
| FileTree.Fs.constructor | kernel/fs/fs.c:160-162 | the cache holds one reference, to the root, and agrees with the tree |
| FileTree.Fs.Search | kernel/fs/dir.c:214-262 | the loop, with its slots, locks and references, computes the walk and the last component; it keeps exactly one reference more, to what it found, and no lock; its own inode_free calls never panic |
| FileTree.Fs.Put | kernel/fs/inode.c:155-169 | giving back a reference to an inode of the file system runs into the panic of inode_destroy if and only if it was the last one and the inode has no name any more |
| LinkCount.CreateKeeps | kernel/fs/dir.c:281-348 | creating a file or directory keeps: one name per directory in its parent, "." and ".." in each, file link counts equal to the entries naming them, directory counts 1 plus subdirectories, no dangling entry |
| LinkCount.LinkKeeps | kernel/fs/dir.c:353-395 | a further name for a file keeps the same |
| LinkCount.LinksFit | kernel/fs/dir.c:389-390 | in a tree of at most 2048 inodes no link count leaves its 16 bits |
| LinkCount.UnlinkKeeps | kernel/fs/dir.c:444-478 | removing a name keeps the same for the inodes that have names left; no size changes; this is the state up to the final inode_free |
| LinkCount.EmptyDir | kernel/fs/dir.c:400-417 | a directory with two used entries has no subdirectory and link count 1 |
| LinkCount.UnlinkedIs | kernel/fs/dir.c:444-478 | the inode whose entry goes is never the root; a directory disappears with its one entry; what disappears had no other name |
| LinkCount.RootAlone | mkfs/mkfs.c:310-323 | the tree of a fresh file system has these properties |
| PathEffects.CreatedPaths | kernel/fs/dir.c:281-348 | every path to the place of a created inode led nowhere and leads to it now, whatever any path led to it still leads to, and with a file no other path changes |
| PathEffects.LinkedPaths | kernel/fs/dir.c:353-395 | every path to the new name led nowhere and leads to the linked file now, and every other path leads where it led |
| PathEffects.UnlinkedPaths | kernel/fs/dir.c:419-478 | a path that asks for the unlinked entry on its way leads nowhere, and every other path leads where it led |
| PathEffects.LinkThenUnlink | kernel/fs/dir.c:353-478 | unlinking a name that was linked leaves every path leading where it led before |
| PathEffects.CreateThenUnlink | kernel/fs/dir.c:281-478 | unlinking a file that was created leaves every path leading where it led before |
| FileTree.MayCreateIs | kernel/fs/dir.c:281-302 | something can be created, given an inode, exactly when the path before the last component leads to a directory where the last component has no entry |
| FileTree.MayLinkIs | kernel/fs/dir.c:353-383 | a link can be made exactly when the old path leads to a file and the new one to a directory without the name and with an unused entry |
| FileTree.MayUnlinkIs | kernel/fs/dir.c:400-457 | what a path can be unlinked from: anything it leads to by a last component other than "." and "..", a directory only when it has no other names than these two |
| FileTree.EmptyMeans | kernel/fs/dir.c:400-415 | two entries in use mean that no entry has another name than "." and ".." |
| FileTree.Fs.Create | kernel/fs/dir.c:281-348 | makes exactly the new inode, its entry under the parent and the sizes, and keeps one reference to it; the path leads to it then, and every path that led somewhere still does; fails exactly when there is no parent, the name is taken or no inode is left; panics exactly when the walk does, when the cache has no slot for the new inode, when the parent is full, or when a directory gets no block |
| FileTree.Fs.Link | kernel/fs/dir.c:353-395 | makes exactly the new entry and counts it, keeps no reference; both paths lead to the file then, and every path that led somewhere still does; panics exactly when a proper prefix of the new path leads to the file itself or an inode on a path gets no slot; else succeeds exactly for a file and a free name in a directory with a free entry |
| FileTree.Fs.Unlink | kernel/fs/dir.c:419-478 | removes exactly the entry and its counts; the path leads nowhere then, and every path that still leads somewhere led there before; possible exactly for an ordinary name whose inode, if a directory, has only "." and ".."; ends in the panic of inode_destroy if and only if the link count was 1 and nobody else references the inode; panics before any store exactly when an inode gets no slot |
| FileTree.EmptyDirIsLast | kernel/fs/dir.c:446-478 | a directory that can be removed is always down to its last name, so unless it is referenced elsewhere the call ends in that panic |
| PathPanics.FullParent | kernel/fs/dir.c:305-313 | creating a file in a root directory with 32 entries panics |
| PathPanics.LinkThroughItself | kernel/fs/dir.c:353-395 | linking a to a/b panics |
| PathPanics.LastNameGoes | kernel/fs/dir.c:419-478 | unlinking the only name of a file that is not open ends in the panic |
| Files.Table.constructor | kernel/fs/file.c:22-41 | an empty table beside a file system has no dangling descriptor, exact counts, and no inode reference |
| Files.Table.Alloc | kernel/fs/file.c:45-65 | the first unused entry with one reference; the panic exactly when all 32 are in use |
| Files.Table.AllocFd | kernel/syscall/sysfile.c:39-51 | the first free descriptor, or -1 exactly when there is none |
| Files.Table.CloseFile | kernel/fs/file.c:133-158 | one reference less; the last one frees the entry and gives the reference to the inode back; its own panic exactly for a count of 0, that of inode_destroy exactly when the last file closes that refers to an inode without a name |
| Files.Table.Open | kernel/syscall/sysfile.c:57-74 | a new descriptor for a new entry that holds the reference to the inode the path leads to then; without creation -1, with no reference kept, exactly when the path leads nowhere, a directory is to be written, or the process has no descriptor left, and with creation exactly when nothing can be created there or no descriptor is left; panics exactly when the walk or the creation does, or with a full table |
| Files.Table.Close | kernel/syscall/sysfile.c:79-91 | the descriptor is cleared and its reference dropped; -1 exactly for a bad descriptor; the panic of file_close is never reached, that of inode_destroy exactly when the last reference to an inode without a name goes |
| Files.Table.Dup | kernel/syscall/sysfile.c:152-164 | a further descriptor and reference, or, with no descriptor left, -1 and a reference that nobody holds |
| Files.Table.ForkFiles | kernel/proc/proc.c:341-346 | the child gets the descriptors of the parent, each with its reference |
| Files.Table.FreeFiles | kernel/proc/proc.c:164-170 | all descriptors of the process are closed; the panic of file_close is never reached, that of inode_destroy exactly when some inode without a name is open in this process alone |
| Files.GiveKeeps | kernel/fs/file.c:247-254 | a descriptor given together with a reference keeps every count equal to descriptors plus leaks |
| Files.TakeKeeps | kernel/fs/file.c:133-158 | a descriptor cleared together with a reference keeps it, and the file had a positive count |
| Files.CloseKeeps | kernel/fs/file.c:133-158 | closing keeps exactly one inode reference for every open file |
| Files.LeakedStaysOpen | kernel/syscall/sysfile.c:152-164 | over every run of opens, dups, closes, forks and exits no descriptor dangles, leaks never shrink, and a file with a leaked reference is never free again |
| FilePanics.DupLeaks | kernel/syscall/sysfile.c:152-164 | sys_dup in a process with 16 descriptors fails, and after the process has closed them all the file is still open and no descriptor names it |
| FilePanics.CloseUnlinked | kernel/fs/file.c:133-158 | a file is opened, unlinked with success, and closed: the close ends in the panic of inode_destroy |
| FilePanics.NoSlotLeft | kernel/fs/inode.c:64-90 | with 31 unlinked files open beside the root, a path operation on an existing file panics for want of a slot |
| Files.ExactWithoutLeaks | kernel/fs/file.c:133-158 | without failed dups a file is in use exactly when some descriptor names it, and its count is their number |

## Left out

- Kernel page table, `kvm` set-up and the identity map: user spaces only.
- `VMem.VmUnmapPages`: without `freeit`, which has no caller, and for ranges below the end of the address space.
- `PhysMem.Memory.Release`: for pages in use; what a second free does to the list is `PhysMem.DoubleFree`.
- A failed page-table allocation: the original goes on with a null table; here the operation stops with the pool empty.
- `uvm_mmap`, `uvm_munmap` and the mmap list: they have no body in the original.
- `UserHeap.UvmHeapGrow`: for ranges below the trapframe page; the entries above are not frames of the space.
- `UserHeap.SysBrk`: the same.
- `UserCopy.UvmCopyIn`: for ranges below the trapframe page; the pages above are not frames of the space.
- `UserCopy.UvmCopyOut`: the same.
- `UserCopy.UvmCopyInStr`: the same.
- `proc_make_first` and `proc_fork` as a whole: the child's `ustack_pages` is not set by the original, so the copy is stated for one call of `uvm_copy_pgtbl`.
- Trapframes, register contexts, `swtch` and the trampolines.
- Finer interleaving than whole kernel sections, more than one CPU, and the inside of spin locks.
- `InodeBlocks.Disk.Locate`: sparse files and a full disk, as for `InodeBlocks.Disk.LocateBlock`.
- `InodeBlocks.Disk.LocateBlock`: an index past the next one of a dense file, and a full disk, where the original stores block number 0.
- `FileData.WriteChunk`: dense writes with free blocks only, as for `FileData.WriteData`.
- `FileData.WriteData`: sparse writes and writes when the disk is full; released blocks that do not read as zero are not reused as index or directory blocks.
- `inode_destroy`: its first call fails an assertion, so what it would go on to do is not modelled; `FreeTree.FreeData` models the release of a file's data.
- Placement of inodes in their disk blocks (`inode_rw`) and of directory blocks in the data area: inodes and directories are kept by number, and directory blocks are among the reserved bits.
- Inode numbers past the inode area, which the inode bitmap scan does not exclude.
- A directory's size: `dir_add_entry` sets it in memory and not every caller writes the inode; no operation on directories reads it, and the model keeps it with the tree.
- Buffer bytes are one value in the buffer cache and at the disk; their layout is the business of the file modules.
- `BufCache.Cache.Read`: a buffer that is found before its first fill has ended is not modelled, because that needs two CPUs or a preempted kernel section.
- `BufCache.Cache.Release`: a buffer that was changed and not written back; the original would drop the change.
- `Virtio.Driver.Request`: two requests under way for one buffer or block, which the buffer cache does not make.
- Device errors and the memory-mapped registers of the disk.
- Device files, `file_read`, `file_write` and `file_lseek` beyond the inode operations they call.
- `Files.Table.Open`: file types, access flags other than the write flag, and offsets; the number of a new inode is a parameter, as for `FileTree.Fs.Create`.
- `Files.Table.Dup`: reference counts are unbounded here and 32 bits wide in the original.
- Console output, debug printers, the self-tests in `fs_init` and the user programs.
