# AcheronOS kernel, in Dafny

A model of the parts of the AcheronOS kernel whose correctness rests on invariants: the kernel heap, the inode block
trees with their bitmap, files and directories over them, copy-on-write fork, the scheduler with its threads and
processes, pipes, and open files.  `dafny verify dfyconfig.toml` checks all of it.

Code that updates structures in place is a class with the fields of the source, and every method is tied to an abstract
view; step-by-step protocols are runs of lock-held regions.  A theorem about runs comes in two parts: a method `RunAll`
that performs any sequence of operations and yields all states in between, each tied to the one before by an exact step,
and lemmas over such sequences of states.

- **Heap** (`HeapLayout`, `Heap`, `HeapTheorems`, `HeapRuns`).  Memory is a sequence of 8-byte words.  The real words carry
  headers, footers, links and list heads; a ghost map of blocks and six ghost lists are the view, and to users the heap is
  a set of arrays.
- **Inode trees** (`InodePath`, `InodeTree`, `InodeClear`, `Inodes`, `InodeTheorems`).  Each tree node has coordinates;
  which nodes are live depends on the number of blocks alone; a ghost map says what each marked block is for.
- **Bitmaps** (`Blocks`, `Bitmaps`).  Bits in bytes in blocks, as one sequence of bits.  The file system works on them; its
  marks are what they say.
- **Files** (`FileContents`, `FileStores`).  A file is a sequence of bytes over the blocks of its tree.
- **Directories** (`Directories`).  A list of unique names over the blocks of a file, with an end entry.
- **Copy-on-write** (`CowState`, `CowTables`, `Cow`, `CowTheorems`).  Entries, counts, marks and the tables of four levels
  on one side, with one pool of pages for all; private memories on the other.
- **Scheduling** (`ReadyQueues`, `ThreadTable`, `Scheduler`, `SchedulerTheorems`).  Three queues with quotas, several
  processors, and the counters of each process.
- **Pipes** (`RingBuffers`, `PipeState`, `Pipes`, `PipeTheorems`).  Critical sections of any number of readers and
  writers.  Queueing oneself and blocking are two steps, as in the code, where the lock is released in between.
- **Open files** (`OpenFileState`, `OpenFiles`, `OpenFileTheorems`).  Descriptor slots, the open file table, pipe ends.
- **Processes** (`ProcessForest`, `HashMaps`, `ProcessGroups`).  The parent and child forest, and the group index on its
  chained hash map.
- **Shared** (`Common`, `Arithmetic`).

Where the code does not do what its names and comments suggest, the model follows the code.  These are the places, each
with its exact condition in the table below, and most with an input that the operations themselves build:

- `get_free_list` looks at the head only in size classes 1 and 2 and misses later blocks that fit, so that the heap grows
  or the allocation fails although there is room.
- `get_block_num_from_inode` divides by S*S in the double range, where append and removal divide by S.  It is right for
  positions below 12+2S and for the first S of the triple range, and nowhere else.  Directories are searched with it, so
  that one of more than 12+2S blocks is read past the buffer.
- An append that finds too few free blocks leaks every block that was free.
- `default_read` does not advance its buffer from block to block.
- `remove_dirent_by_f_name` reports success or failure by whether the last block is full, whether or not the name is
  there, and on failure does not write the last block.
- `cpy_address_space` stops where memory runs out and does not report it.
- `pt_map_new_page` does not give its page back when the tables to map it cannot be had.
- A thread that was stopped or terminated by another stays current until its own processor next switches.  Continuing it
  before that puts it on two processors; cleaning it up leaves a processor on a thread that is in no table.
- A pipe reader woken between queueing itself and blocking misses the wake-up.  A data byte 4 is taken for the end mark.
  A read that meets it, or finds the buffer empty after the last write end is gone, leaves without waking the writers.
- Closing the last writer of a full pipe is refused, and the reference is never given up.
- `setpgrp` can leave a process in no group when memory runs out.

## Model

| member | source | states |
|---|---|---|
| `HeapRuns.RunAll` | kernel/memory/kmalloc.c:340-425 | Any run of kmalloc, kfree, krealloc and stores is a run on a set of arrays: each operation does to the arrays exactly what it should; a request gets NULL exactly when it is empty, or nothing is found for it, not even in place, and fewer than 512 words, or than the 2*((size+31)/16) words of its block, are left; and the break moves only when nothing is found, by the larger of the two |
| `HeapRuns.Perform` | kernel/memory/kmalloc.c:340-425 | One operation is one such step, and which pointers are live afterwards |
| `HeapRuns.ArraysApart` | kernel/memory/kmalloc.c:298-337 | In every state of a run no two arrays share a word, and all lie below the break |
| `HeapRuns.Untouched` | kernel/memory/kmalloc.c:340-425 | An array keeps its words through any run whose operations do not name it |
| `HeapTheorems.HeapParses` | kernel/memory/kmalloc.c:271-337 | In every state that the operations keep, a parser that looks only at the raw words finds, from prologue to epilogue, a gap-free run of blocks with equal header and footer and sizes that are multiples of 16 and at least 32; the run is exactly the set of blocks, and no two neighbours are free |
| `HeapTheorems.ParseFrom` | kernel/memory/kmalloc.c:201-269 | The same from any block on, by induction over the words |
| `HeapTheorems.FreeListedOnce` | kernel/memory/kmalloc.c:108-130 | A free block is on the list for its size in bytes, up to 32, 64, 96, 192, 512 or above, at one place, and on no other list |
| `HeapTheorems.OnlyFreeListed` | kernel/memory/kmalloc.c:108-130 | Nothing but free blocks is on the lists, each within the bounds of its list |
| `HeapTheorems.TagsInBytes` | kernel/memory/kmalloc.c:242-251 | Header and footer of every block hold its size in bytes, a multiple of 16, plus 1 iff it is allocated |
| `HeapTheorems.RequestInClass` | kernel/memory/kmalloc.c:132-171 | A request is first looked for on the list that a block of the size it needs belongs to |
| `HeapTheorems.LiveDisjoint` | kernel/memory/kmalloc.c:298-337 | The payloads of two live pointers share no word, and a header and a footer lie between them |
| `HeapTheorems.MissedFit` | kernel/memory/kmalloc.c:132-171 | `get_free_list` misses a free block that fits if and only if the request is of class 1 or 2, the head of that list is too small and no larger class has a block |
| `HeapTheorems.MissedFitExample` | kernel/memory/kmalloc.c:132-171 | Built by allocating and freeing: a heap that has a free block for the request, which the search misses |
| `Heap.FindableFrom` | kernel/memory/kmalloc.c:132-171 | Searching on with the rewritten size finds a block iff some later list is not empty |
| `Heap.BigBlockFindable` | kernel/memory/kmalloc.c:253-269 | The block that growing the heap adds makes the request that asked for it findable |
| `Heap.Kmalloc.Init` | kernel/memory/kmalloc.c:271-296 | Lays out an empty valid heap with one free page of 512 words, and fails exactly when the region has fewer than 521 |
| `Heap.Kmalloc.InsertFree` | kernel/memory/kmalloc.c:108-130 | The block becomes the head of the list of its class; all other blocks, lists and live words are as before |
| `Heap.Kmalloc.RemoveFree` | kernel/memory/kmalloc.c:173-199 | The block leaves the list of its class, whatever its position; everything else is as before |
| `Heap.Kmalloc.AbsorbPrev` | kernel/memory/kmalloc.c:201-221 | A free block before the given one is merged into it, and only then |
| `Heap.Kmalloc.AbsorbNext` | kernel/memory/kmalloc.c:223-240 | A free block after the given one is merged into it, and only then |
| `Heap.Kmalloc.Coalesce` | kernel/memory/kmalloc.c:201-240 | The result has no free neighbour on either side, and no live word changed |
| `Heap.Kmalloc.InitializeFree` | kernel/memory/kmalloc.c:242-251 | The merged block is listed and the heap is valid again |
| `Heap.Kmalloc.ExtendHeap` | kernel/memory/kmalloc.c:253-269 | Fails exactly when the region has no room; otherwise the last block is free and at least as large as asked |
| `Heap.Kmalloc.Scan` | kernel/memory/kmalloc.c:163-169 | The first block of one list that fits, or none if none does |
| `Heap.Kmalloc.GetFreeList` | kernel/memory/kmalloc.c:132-171 | The first fit on the list of the request, which in classes 1 and 2 can only be its head, or else the head of the next list that is not empty; NULL exactly when the request is not findable; the recursion terminates although the size is rewritten |
| `Heap.Kmalloc.ScanFrom` | kernel/memory/kmalloc.c:134-140 | A list that is gone through: its first fit, or the search goes on with the next size |
| `Heap.Kmalloc.HeadOrOn` | kernel/memory/kmalloc.c:141-144 | A list of which only the head is looked at: the head if it fits, or the search goes on |
| `Heap.ChosenFrom` | kernel/memory/kmalloc.c:132-171 | A search that goes on with the rewritten size ends at the head of the next list that is not empty |
| `Heap.Kmalloc.Carve` | kernel/memory/kmalloc.c:320-337 | Splits off the rest if and only if it is at least 32 bytes; the rest is free, merged and listed |
| `Heap.Kmalloc.GetAllocation` | kernel/memory/kmalloc.c:298-337 | The chosen block, of which 2*((size+31)/16) words are taken and the rest is free again if it is 32 bytes or more; NULL leaves the heap as it was |
| `Heap.Kmalloc.Alloc` | kernel/memory/kmalloc.c:340-367 | NULL for an empty request, and otherwise exactly when nothing is findable and fewer than 512 words, or than the words of the block, are left; else the chosen block, of the aligned size or 16 bytes more, and every other live payload keeps its address, size and words; the break moves only when nothing is findable, by the larger of the two |
| `Heap.Kmalloc.Release` | kernel/memory/kmalloc.c:369-382 | Only the freed block changes hands; NULL is ignored |
| `Heap.Kmalloc.CopyWords` | kernel/memory/kmalloc.c:25-32 | Copies one payload into another and nothing else |
| `Heap.Kmalloc.GrowInPlace` | kernel/memory/kmalloc.c:403-415 | The block takes in its free successor and keeps its words |
| `Heap.Kmalloc.Relocate` | kernel/memory/kmalloc.c:418-425 | Allocate, copy, free: the whole old payload is copied, or the heap still holds it and NULL is returned; the break moves as for kmalloc |
| `Heap.Kmalloc.Realloc` | kernel/memory/kmalloc.c:387-425 | On all three paths the old words are the start of the new payload and all other payloads are as they were; on failure the old block is untouched; a block that is large enough stays as it is; the break moves only on the third path, as for kmalloc |
| `InodeTheorems.RunAll` | kernel/fs/inodes.c:565-1317 | Any run of create, link, append, remove, clear and unlink is the same run on a map from files to sequences of blocks; every refusal and every success has its exact condition; in every state the bytes of the bitmap agree with the marks; of the blocks in use only pointer blocks of the file at hand are written; if no append found too few free blocks, a block is marked iff it is metadata or in the tree of exactly one file |
| `InodeTheorems.Perform` | kernel/fs/inodes.c:565-1317 | One operation is one step on the sequences; it is refused, or starves, exactly when the source reports so, and only a starved append loses blocks |
| `InodeTheorems.DataStays` | kernel/fs/inodes.c:565-1317 | Over a run, as long as a file reaches to a position, the block there is the same one and holds the same words |
| `InodeTheorems.StepData` | kernel/fs/inodes.c:565-1317 | No operation writes to a data block of any file |
| `InodePath.CapacityIs` | kernel/fs/inodes.c:565-568 | A full file has 12 + S + S*S + S*S*S blocks |
| `InodeTheorems.LookupExact` | kernel/fs/inodes.c:503-539 | Lookup returns the block that append put at a position if and only if the position is among the first S of its pointer range (i < 12+2S, or the first S of the triple range); at every other position it reads past its buffer or returns another block of the same file; S is the block numbers per block |
| `InodeTheorems.LookupShort` | kernel/fs/inodes.c:503-539 | In a file of at most 12+2S blocks lookup returns the block at every position, and 0 if and only if the position is past the end |
| `InodeTheorems.LookupLost` | kernel/fs/inodes.c:518-526 | A file, built by appends, in which lookup of position 12+2S reads past its buffer |
| `InodeTheorems.LookupDouble` | kernel/fs/inodes.c:518-526 | In the double range: right on the first S positions, past the buffer on all others |
| `InodeTheorems.LookupTriple` | kernel/fs/inodes.c:528-539 | In the triple range: which digits lookup follows in place of those of append |
| `InodeTheorems.ConfusedAt` | kernel/fs/inodes.c:528-539 | The earlier position whose block lookup returns by mistake |
| `InodeTheorems.BlocksDistinct` | kernel/fs/inodes.c:565-809 | No block is at two positions of a file or in two files; each is past the metadata and marked |
| `InodeTheorems.AppendThenRemove` | kernel/fs/inodes.c:565-1317 | At every size, append then remove restores the bitmap, the use of every block and every file; it succeeds iff the file is not full and enough blocks are free |
| `InodeTheorems.BlockLost` | kernel/fs/inodes.c:579-608 | A disk, filled by appends, on which an append fails and loses the last free block |
| `InodePath.PathSucc` | kernel/fs/inodes.c:609-686 | The digits of the next position are those of this one with a carry |
| `InodePath.LiveSucc` | kernel/fs/inodes.c:565-809 | Growing by one block adds exactly the data block and the pointer blocks first needed for it |
| `InodePath.DataInjective` | kernel/fs/inodes.c:503-539 | Different positions are at different nodes of the tree |
| `InodeTree.GrowInv` | kernel/fs/inodes.c:565-809 | Linking the blocks of the new nodes keeps the trees disjoint and the bitmap exact |
| `InodeTree.ShrinkInv` | kernel/fs/inodes.c:1026-1317 | Unlinking the last block keeps them too, and names the blocks given up |
| `InodeTree.PromoteGrows` | kernel/fs/inodes.c:583-593 | The numbers in slots 12 to 14 move behind a new single pointer and no position moves |
| `InodeTree.DemoteShrinks` | kernel/fs/inodes.c:1055-1085 | And back again |
| `Inodes.FileSystem.constructor` | kernel/fs/inodes.c:192-311 | After formatting exactly the metadata and the first data block, which is the root directory, are marked and in use, and the bytes of the bitmap say so |
| `Inodes.FileSystem.Create` | kernel/fs/inodes.c:980-1024 | A new empty file; blocks and files are as before |
| `Inodes.FileSystem.Delete` | kernel/fs/inodes.c:956-978 | One link less; with the last one the file and exactly the blocks of its tree are given up, otherwise nothing else changes |
| `Inodes.FileSystem.AddLink` | kernel/fs/dirs.c:45-51 | One link more, and nothing else changes |
| `Inodes.FileSystem.FindFreeBlock` | kernel/fs/inodes.c:454-466 | The search of the bytes finds the lowest free block, which is marked now; fails iff there is none; marks and bytes agree afterwards |
| `Inodes.FileSystem.FreeBlock` | kernel/fs/disk.c:1064-1103 | One mark is cleared, and its bit; marks and bytes agree afterwards |
| `Inodes.LowestFree` | kernel/fs/disk.c:1105-1171 | While bytes and marks agree, the lowest clear bit is the lowest free block, and there is none exactly if no block is free |
| `Inodes.FileSystem.AppendInline` | kernel/fs/inodes.c:576-578 | Up to 15 blocks: the file is one block longer, other files and every pointer are as before |
| `Inodes.FileSystem.AppendSingle` | kernel/fs/inodes.c:579-608 | The same behind the single pointer, through the promotion at 15 blocks; fails exactly when a pointer block is needed and none is free |
| `Inodes.FileSystem.AppendDouble` | kernel/fs/inodes.c:609-673 | The same behind the double pointer, whichever pointer blocks exist; fails exactly when fewer are free than needed |
| `Inodes.FileSystem.AppendTriple` | kernel/fs/inodes.c:674-803 | The same behind the triple pointer |
| `Inodes.FileSystem.Append` | kernel/fs/inodes.c:565-809 | The file grows by one block that was free, other files are as before, and of the blocks in use only its own pointer blocks are written; fails exactly for a full file or too few free blocks, and in the second case every free block is lost and no file changes |
| `Inodes.FileSystem.RemoveInline` | kernel/fs/inodes.c:1043-1054 | Up to 15 blocks: the last block goes and its entry is zero, exactly the blocks that only it needed are given up, other files and all data are as before |
| `Inodes.FileSystem.RemoveDemote` | kernel/fs/inodes.c:1055-1085 | The same from 16 to 15 blocks, where the single pointer is dissolved |
| `Inodes.FileSystem.RemoveSingle` | kernel/fs/inodes.c:1086-1114 | The same in the single range |
| `Inodes.FileSystem.RemoveDouble` | kernel/fs/inodes.c:1115-1190 | The same in the double range, with up to two pointer blocks |
| `Inodes.FileSystem.RemoveTriple` | kernel/fs/inodes.c:1191-1310 | The same in the triple range, with up to three pointer blocks |
| `Inodes.FileSystem.RemoveLast` | kernel/fs/inodes.c:1026-1317 | The file loses its last block, exactly the blocks that its append took are free again, the entry that led there is zero, and only its own pointer blocks are written; fails exactly for an empty file |
| `Inodes.FileSystem.FreeFromSingle` | kernel/fs/inodes.c:811-837 | Frees a pointer block and the data blocks behind it, until as many as the file has are gone |
| `Inodes.FileSystem.FreeFromDouble` | kernel/fs/inodes.c:839-861 | Likewise two levels down |
| `Inodes.FileSystem.FreeFromTriple` | kernel/fs/inodes.c:863-885 | Likewise three levels down |
| `Inodes.FileSystem.ClampKept` | kernel/fs/inodes.c:887-896 | Only slots that hold a block are kept |
| `Inodes.FileSystem.FreePointers` | kernel/fs/inodes.c:922-954 | All blocks behind the pointers of a large file are freed, data and pointer blocks alike |
| `Inodes.FileSystem.Clear` | kernel/fs/inodes.c:898-954 | The bitmap loses exactly the tree of the file but for its kept first blocks; other files are as before |
| `Bitmaps.ByteSets` | kernel/fs/disk.c:1064-1103 | Setting or clearing one bit of one byte changes that bit of the whole bitmap and no other |
| `Bitmaps.MaskBit` | kernel/fs/disk.c:1091-1097 | The mask of bit k picks out bit (x >> (7 - k)) & 1 of a byte |
| `Bitmaps.Bitmap.SetBit` | kernel/fs/disk.c:1064-1103 | The bitmap across its blocks changes in bit `idx` alone; out of range is an error and changes nothing |
| `Bitmaps.Bitmap.FindFree` | kernel/fs/disk.c:1105-1171 | The lowest clear bit among the valid ones, set if asked; fails iff all are set |
| `Bitmaps.Bitmap.Format` | kernel/fs/inodes.c:88-162 | A bit of a new bitmap is set iff its block is in use from the start or does not exist, whether its byte was filled in a run or made bit by bit |
| `Bitmaps.Bitmap.FillRun` | kernel/fs/inodes.c:106-141 | The longest run of blocks that are all ones, or all zeros, is filled, and no bit of it is wrong |
| `Bitmaps.Bitmap.MixedBlock` | kernel/fs/inodes.c:143-158 | A block of both, bit by bit |
| `FileContents.ChunkWritten` | kernel/fs/kapi.c:329-376 | Writing a piece into one block is writing it into the file at that offset |
| `FileContents.SpliceBytes` | kernel/fs/kapi.c:329-376 | Byte by byte, what a write leaves: the piece from its offset on, and all other bytes as they were |
| `FileContents.ReadExact` | kernel/fs/kapi.c:181-251 | A read returns the right bytes for every file and buffer if and only if it stays within one block |
| `FileContents.LastPart` | kernel/fs/kapi.c:200-246 | What the start of the buffer holds after a longer read: the part in the last block |
| `FileContents.WrittenIsRead` | kernel/fs/kapi.c:181-410 | Reading back part of what was written, within a block, gives that part; the rest of the file reads as before |
| `FileStores.FileStore.BlockFor` | kernel/fs/kapi.c:314-322 | The block at an index, newly appended if the file ends there, with no content changed; fails only if too few blocks are free |
| `FileStores.FileStore.PutPiece` | kernel/fs/kapi.c:329-376 | One round of the loop splices a piece into the file and leaves other files alone |
| `FileStores.FileStore.Write` | kernel/fs/kapi.c:301-410 | The bytes from the offset on are replaced or extended by the buffer and all others kept, in this file and every other; it succeeds iff the free blocks suffice for all blocks that it appends; otherwise it writes exactly up to the first block that they do not suffice for, and leaves none free; the cursor moves by what was written |
| `FileStores.FileStore.Read` | kernel/fs/kapi.c:181-251 | The number of bytes up to the end of the file, the new cursor, and exactly what the buffer holds |
| `FileStores.FileStore.WriteThenRead` | kernel/fs/kapi.c:181-410 | A write, then a read of any part of what was written that lies within a block, gives that part; other files are as before; success and what was written are under the condition of the write |
| `Directories.FullIff` | kernel/fs/dirs.c:7-93 | All blocks are full iff the number of entries is a multiple of the entries per block |
| `Directories.Directory.constructor` | kernel/fs/dirs.c:7-93 | A new directory has no block and no entry |
| `Directories.Directory.Populate` | kernel/fs/dirs.c:7-93 | The entries of itself and of its parent; fails iff no block is free; every block that is not of the directory holds what it held, and every other file has the same blocks with the same entries |
| `Directories.Directory.Lookup` | kernel/fs/dirs.c:250-298 | Finds exactly the members in the first 12+2S blocks, each with its own entry; reports absent exactly a name that is not there, in a directory of no more blocks; and reads past its buffer in all other cases |
| `Directories.Directory.BlockAt` | kernel/fs/disk.c:1173-1176 | The block lookup of a directory: the right block below 12+2S, 0 past the end, past the buffer at 12+2S |
| `Directories.SearchRunsWild` | kernel/fs/dirs.c:250-298 | A directory, built by adding names, of 12+2S+1 blocks, in which the search for a name that is not there reads past the buffer |
| `Directories.Directory.Search` | kernel/fs/dirs.c:18-62 | Where a name is, or where the next entry goes; absent, found and past the buffer under the conditions of lookup |
| `Directories.Directory.Add` | kernel/fs/dirs.c:7-93 | Appends a new name, across block boundaries, or reports a duplicate; fails for want of blocks exactly when the last block is full and fewer are free than the append needs; runs past the buffer exactly for a new name in a directory of more than 12+2S blocks; every block that is not of the directory holds what it held, and every other file has the same blocks with the same entries |
| `Directories.Directory.PutEnd` | kernel/fs/dirs.c:28-54 | The end entry gives way to the new one, and moves on if there is room; only that block is written, and every other file holds the entries that it held |
| `Directories.Directory.PutNew` | kernel/fs/dirs.c:64-92 | A new block for the entry, whatever its buffer held; fails iff fewer blocks are free than the append needs; every block that is not of the directory holds what it held, and every other file has the same blocks with the same entries |
| `Directories.Directory.Remove` | kernel/fs/dirs.c:591-666 | Past the buffer iff there are more than 12+2S blocks; otherwise success iff the last block is not full, whether the name is there or not; then a present name goes and the order of the others stays; else the exact contents that are left behind; every block that is not of the directory holds what it held, and every other file has the same blocks with the same entries |
| `Directories.Directory.AddThenRemove` | kernel/fs/dirs.c:591-666 | Adding a name and removing it, within 12+2S blocks, restores the list if and only if the add did not fill the last block; if it did, the removal reports the name absent and it stays; every other file holds the entries that it held |
| `Directories.Directory.Pass` | kernel/fs/dirs.c:606-660 | One block of the shifting loop: the first entry of the next block comes in at its end |
| `Directories.Directory.Overwrite` | kernel/fs/dirs.c:606-660 | One block of the directory is replaced; all other blocks, and the entries of every other file, are as they were |
| `Directories.Directory.OthersSpared` | kernel/fs/dirs.c:28-37 | If only blocks of the directory changed, every other file holds the entries that it held |
| `Directories.BotchedUnique` | kernel/fs/dirs.c:591-666 | A removal that fails leaves the names unique iff the name was not in an earlier block than the last |
| `Directories.RemovalBotched` | kernel/fs/dirs.c:591-666 | A directory, built by adding names, where a removal reports the name absent and leaves another name twice |
| `Directories.RemovesOnlyOne` | kernel/fs/dirs.c:591-666 | Every other name stays, in the same relative order |
| `CowTheorems.RunAll` | kernel/scheduler/process.c:616-682 | Any run of address-space copies, stores, first touches, process starts and ends is a run of the system where every page is private and a copy copies all of them: each process reads the same, as far as the copy came; each operation is done exactly when the free pages suffice; and pages are lost exactly by first touches that find a page and no tables |
| `CowTheorems.Perform` | kernel/memory/mmu.c:378-480 | One operation is one step of that system, done or refused under the exact condition on the state before it |
| `CowTheorems.WholeCopy` | kernel/scheduler/process.c:616-682 | A copy is whole if and only if the tables and the kernel pages of the parent are no more than the free pages together with those that the space of the child gives up; then the child sees what the parent sees |
| `CowTheorems.CopyCutShort` | kernel/scheduler/process.c:616-682 | Two processes and one free page: the child gets nothing of the page that the parent has |
| `CowTheorems.CountsExact` | kernel/memory/page_table/page_table.c:891-914 | The count of a page is the number of processes that map it and fits 16 bits; a page mapped twice is writable in none |
| `CowTheorems.NeverBothWritable` | kernel/memory/page_table/page_table.c:999-1009 | Two entries for one page are both read-only |
| `CowTheorems.PagesConserved` | kernel/memory/page_table/page_table.c:566-615 | In every reachable state each page of the pool is mapped, a page table, lost or free; without processes only lost pages are not free |
| `CowTheorems.PageLost` | kernel/memory/page_table/page_table.c:715-727 | A pool of two pages of which one is lost for good, when the process that touched it is gone |
| `Cow.Memory.constructor` | kernel/memory/page_table/page_table.c:556-563 | All pages are free |
| `Cow.Memory.AllocPage` | kernel/memory/page_table/page_table.c:566-595 | A page that was free and now is not; fails iff none is free |
| `Cow.Memory.FreePage` | kernel/memory/page_table/page_table.c:597-615 | The page is free again |
| `Cow.Memory.NextTable` | kernel/memory/page_table/page_table.c:627-638 | The table below, newly taken if it is missing; fails iff it is missing and no page is free |
| `Cow.Memory.Reach` | kernel/memory/page_table/page_table.c:640-667 | All tables on the way to an entry; fails iff more are missing than pages are free, and then those taken stay, and no page is free |
| `CowTables.MirrorHangs` | kernel/scheduler/process.c:616-655 | When the copy comes to a mapped entry, the table for it has been copied |
| `CowTables.CostTotal` | kernel/scheduler/process.c:616-682 | What a copy takes, index by index, adds up to the tables and kernel pages of the parent |
| `CowTables.CoverIs` | kernel/memory/page_table/page_table.c:645-648 | A table of the last level is for as many pages as it has entries, and one of each level above for that many times more |
| `Cow.Memory.MapNew` | kernel/memory/page_table/page_table.c:715-727 | A private page appears at the address and nothing else looks different, iff there are pages for it and for the tables it lacks; otherwise nothing looks different, and a page is lost iff one was free |
| `Cow.Memory.LoadPage` | kernel/memory/page_table/page_table.c:392-493 | The same for a page of a file, which is given back if the tables cannot be had |
| `Cow.Memory.DropEntry` | kernel/memory/page_table/page_table.c:897-914 | One reference less; the page is free again iff that was the last, and no other process sees a change |
| `Cow.Memory.WriteFault` | kernel/memory/mmu.c:378-480 | Each outcome exactly when the source takes it; on success the page is writable here and nobody sees different bytes |
| `Cow.Memory.TakeBack` | kernel/memory/page_table/page_table.c:1011-1020 | The sole owner may write; nothing looks different |
| `Cow.Memory.CopyOut` | kernel/memory/mmu.c:449-474 | A private copy replaces a shared page; fails iff no page is free |
| `Cow.Memory.Write` | kernel/memory/mmu.c:378-480 | A store is seen by its process at that address only; it succeeds iff the process may write there and a copy can be made if one is needed |
| `Cow.Memory.MarkCow` | kernel/memory/page_table/page_table.c:999-1009 | Marking a page changes nothing that a process sees |
| `Cow.Memory.Share` | kernel/scheduler/process.c:662-674 | The child sees what the parent sees at the address |
| `Cow.Memory.CopyEntry` | kernel/scheduler/process.c:649-675 | Kernel pages are copied, user pages shared; either way the child has the parent's bytes; fails iff a kernel page is to be copied and none is free |
| `Cow.Memory.CopyTables` | kernel/scheduler/process.c:625-648 | The tables that begin at an index are copied; fails iff they are more than the free pages |
| `Cow.Memory.CopyWalk` | kernel/scheduler/process.c:625-680 | The walk stops at the first index whose tables and kernel page cannot be had, on the free pages at its start; the child sees what the parent sees up to there, and nothing after |
| `Cow.Memory.CopySpace` | kernel/scheduler/process.c:616-682 | Does nothing if no page is free; otherwise the child loses its own space and sees the parent's, up to the first index for which free pages and those given up do not suffice; everybody else sees what they saw |
| `Cow.Memory.Destroy` | kernel/memory/page_table/page_table.c:213-244 | Every page of the space loses a reference, its tables are free, and the free pages grow by exactly the pages that were only its own and its tables; other spaces are as before |
| `Cow.Memory.FreeTables` | kernel/memory/page_table/page_table.c:213-244 | The tables of a space go, those below first, and each is free |
| `Cow.Memory.Exit` | kernel/scheduler/process.c:510-510 | A process goes and no other sees a change |
| `Cow.Memory.Create` | kernel/memory/page_table/page_table.c:876-889 | An empty space with a root table; fails iff no page is free |
| `SchedulerTheorems.WaitsNoLonger` | kernel/scheduler/scheduler.c:277-341 | In any run in which nobody stops it, and in which no thread is continued or cleaned up that another processor has not let go of, a READY thread with k entries ahead in queue 0, 1 or 2 is dispatched by one of the first 13(k+1), 16(k+1) or 18(k+1) picks |
| `SchedulerTheorems.TurnLasts` | kernel/scheduler/scheduler.c:318-341 | Over any run: while queue 0, 1 or 2 has the turn and holds a ready thread, exactly its next 10, 7 or 5 picks, less those counted so far, come from it, and the one after comes from the next queue that holds a ready thread |
| `SchedulerTheorems.TurnAt` | kernel/scheduler/scheduler.c:25-26 | Where the turn and the counter are after each pick of such a run |
| `SchedulerTheorems.PickInTurn` | kernel/scheduler/scheduler.c:318-341 | A pick takes a thread of the queue that has the turn, or of the first one after it, going round, that holds a ready thread |
| `SchedulerTheorems.DispatchedRuns` | kernel/scheduler/scheduler.c:239-261 | The thread that a pick returns runs on the processor that picked |
| `SchedulerTheorems.RunAll` | kernel/scheduler/scheduler.c:220-341 | Every sequence of operations on any processors is a run of exact steps through sound states, up to the first operation that continues or cleans up a thread which another processor has not let go of |
| `SchedulerTheorems.OnePlace` | kernel/scheduler/scheduler.c:220-316 | A thread is in one slot of one queue or current on one processor, never both; a READY thread handed to the scheduler is queued exactly once |
| `SchedulerTheorems.ReapedIsDead` | kernel/scheduler/process.c:84-97 | A zombie process, which is what waitpid reaps, has only zombie threads; and one that has had threads is a zombie as soon as all of them are |
| `SchedulerTheorems.ProcessSays` | kernel/scheduler/process.c:819-878 | Over any run, from the first state in which a process has a thread on: it is running iff some thread of it is ready or running, blocked iff none is and some is blocked, stopped iff none of those and some is stopped, and a zombie iff all its threads are |
| `SchedulerTheorems.StateSays` | kernel/scheduler/process.c:852-877 | The same in every sound state, for a process that is not new |
| `SchedulerTheorems.Perform` | kernel/scheduler/scheduler.c:220-341 | What every operation does to queues, threads, counters and processors, exactly; afterwards every thread is in its place if and only if the operation did not continue a stopped thread, or clean up a zombie, that is still current somewhere |
| `SchedulerTheorems.TwoAtOnce` | kernel/threading/thread.c:230-310 | A run in which a thread that is current on one processor is the next pick for any other: it was stopped and continued from elsewhere |
| `SchedulerTheorems.CleanedTooSoon` | kernel/threading/thread.c:205-256 | A run in which a thread is in no table and still current on a processor: it was terminated and cleaned up from elsewhere |
| `ReadyQueues.PickCloser` | kernel/scheduler/scheduler.c:318-341 | A pick of another thread strictly lowers the bound on the wait of a ready one |
| `ReadyQueues.PatienceBound` | kernel/scheduler/scheduler.c:24-26 | That bound is below 13(k+1), 16(k+1) and 18(k+1) in queues 0, 1 and 2 |
| `ReadyQueues.NoneIffNotReady` | kernel/scheduler/scheduler.c:318-341 | A pick finds nothing exactly when no queued thread is ready |
| `ReadyQueues.PickEntries` | kernel/scheduler/scheduler.c:318-341 | A pick takes one entry of the thread it returns and keeps every other ready entry |
| `Scheduler.Kernel.constructor` | kernel/scheduler/scheduler.c:51-64 | No thread is known and every processor idles |
| `Scheduler.Kernel.AddLocked` | kernel/scheduler/scheduler.c:277-291 | A READY thread enters the front of its own queue unless it is in any |
| `Scheduler.Kernel.Add` | kernel/scheduler/scheduler.c:293-297 | The same, after which the thread counts as handed in |
| `Scheduler.Kernel.RemoveThread` | kernel/scheduler/scheduler.c:299-316 | Every entry of the thread goes and the others keep their order |
| `Scheduler.Kernel.PopReady` | kernel/scheduler/scheduler.c:320-335 | The ready thread nearest the back of one queue, with the stale entries behind it |
| `Scheduler.Kernel.NextLocked` | kernel/scheduler/scheduler.c:318-341 | The pick: the ready thread nearest the back of the first queue in turn that has one; it counts against the 10, 7 or 5 picks of that queue, and the last of them moves the turn on |
| `Scheduler.Kernel.Resched` | kernel/scheduler/scheduler.c:239-261 | A processor takes the picked thread, or idles if nothing is ready |
| `Scheduler.Kernel.Tick` | kernel/scheduler/scheduler.c:220-261 | The current thread, if it was not stopped or terminated meanwhile, becomes ready and enters its own queue unless it is queued; then the processor runs the pick among all ready threads; no other thread changes |
| `Scheduler.Kernel.ChangeCounters` | kernel/scheduler/process.c:819-878 | The counters move by one; the state is running iff the first is positive, else blocked iff the second is, else stopped iff the third is |
| `ThreadTable.CountedChange` | kernel/scheduler/process.c:819-878 | If the counters of a process were the numbers of its threads in each class, they are so after a change that was reported |
| `Scheduler.Kernel.Create` | kernel/threading/thread.c:45-117 | A ready thread of priority 1, counted, not yet queued |
| `Scheduler.Kernel.SelfExit` | kernel/threading/thread.c:119-149 | The thread is a zombie and the processor runs the picked thread; no other thread changes, and the counters follow |
| `Scheduler.Kernel.SelfBlock` | kernel/threading/thread.c:258-268 | The thread blocks and the processor runs the picked thread; no other thread changes |
| `Scheduler.Kernel.SelfStop` | kernel/threading/thread.c:230-242 | The thread stops, remembers what it was, and the processor runs the picked thread; one that was stopped meanwhile goes on |
| `Scheduler.Kernel.Stop` | kernel/threading/thread.c:230-242 | Any other thread stops and remembers its state, also one that runs elsewhere; stopping twice changes nothing |
| `Scheduler.Kernel.Terminate` | kernel/threading/thread.c:244-256 | Any other thread is a zombie, also one that runs elsewhere |
| `Scheduler.Kernel.Unblock` | kernel/threading/thread.c:270-285 | A blocked thread is ready and queued; any other is left alone |
| `Scheduler.Kernel.Continue` | kernel/threading/thread.c:287-310 | A thread stopped while it waited and still waiting is blocked again; one that was ready or ran, or whose wait is over, is ready and queued; threads are in their places afterwards if and only if it was not still current and to be queued |
| `Scheduler.Kernel.Cleanup` | kernel/threading/thread.c:205-227 | A zombie is in no table, queue or count; threads are in their places afterwards if and only if it was not still current |
| `Scheduler.Kernel.ChangePriority` | kernel/threading/thread.c:327-334 | An unknown thread or priority changes nothing; a queued entry stays where it is |
| `Scheduler.Kernel.NewProcess` | kernel/scheduler/process.c:391-464 | A process without threads counts as running |
| `PipeTheorems.RunAll` | kernel/pipe/pipe.c:152-298 | Every sequence of critical sections is a run in which each state is a function of the one before, and all are sound; and for every call, what it put, or was given, since it entered and what it has left make up what it was asked |
| `PipeTheorems.WriteSoFar` | kernel/pipe/pipe.c:276-292 | Over any run, for a thread inside a write: the bytes that its steps put into the pipe since it entered, followed by those it has left, are the bytes that it was asked to write |
| `PipeTheorems.WriteReturns` | kernel/pipe/pipe.c:266-298 | A write that returns has put every byte that it was asked to write, in order |
| `PipeTheorems.ReadSoFar` | kernel/pipe/pipe.c:235-259 | For a thread inside a read: the bytes given to it since it entered and those it still needs are as many as it asked for |
| `PipeTheorems.ReadReturns` | kernel/pipe/pipe.c:225-264 | A read returns with as many bytes as it asked for, or at a byte 4, or at an empty buffer with no writer left |
| `PipeTheorems.WriteOne` | kernel/pipe/pipe.c:276-292 | What one critical section, of whatever thread, does to a write in progress |
| `PipeTheorems.ReadOne` | kernel/pipe/pipe.c:235-259 | What it does to a read in progress |
| `PipeTheorems.DeliveredInOrder` | kernel/pipe/pipe.c:225-298 | In every reachable state the bytes delivered, followed by those in the buffer, are the bytes accepted, in order, bytes 4 aside; the two wait queues are never both non-empty |
| `PipeTheorems.Remembered` | kernel/pipe/pipe.c:152-298 | Over any run, all waiting threads are queued, queued readers with data available have an awake writer and queued writers with space an awake reader, if and only if no operation wakes a queue with a thread in it that is still on its way to sleep, and no read ends without waking the writers that are queued, at a byte 4 or with no write end left, while no other reader is awake; and then no sleeper is forgotten |
| `PipeTheorems.KeptExactly` | kernel/pipe/pipe.c:225-298 | Over any run, no thread waits outside its queue if and only if the first of these two was minded |
| `PipeTheorems.LosesIff` | kernel/pipe/pipe.c:152-298 | Exactly which critical section loses a thread |
| `PipeTheorems.LostForGood` | kernel/pipe/pipe.c:152-172 | A thread that waits outside its queue does so whatever happens next |
| `PipeTheorems.TendedIff` | kernel/pipe/pipe.c:225-265 | Exactly which critical section leaves queued threads without a peer |
| `PipeTheorems.PlainRun` | kernel/pipe/pipe.c:191-265 | A run that sends no byte 4 and does not close the last write end under a write has no such read |
| `PipeTheorems.WokenTooSoon` | kernel/pipe/pipe.c:225-265 | A run in which a reader woken between queueing and blocking sleeps on beside a byte, with nobody left to wake it |
| `PipeTheorems.TakenForTheEnd` | kernel/pipe/pipe.c:225-265 | A run in which a data byte 4 ends a read without waking the writers, and one sleeps on beside free space |
| `PipeTheorems.ClosedUnderWrite` | kernel/pipe/pipe.c:191-265 | A run in which the last write end is closed under a write, and its writer sleeps on beside free space |
| `Pipes.Pipe.constructor` | kernel/pipe/pipe.c:68-150 | An empty buffer and one writer |
| `Pipes.Pipe.WakeReaders` | kernel/pipe/pipe.c:152-161 | Every queued reader that sleeps goes on with what it needed, one on its way to sleep stays as it is, the queue is empty and no other thread changes |
| `Pipes.Pipe.WakeWriters` | kernel/pipe/pipe.c:163-172 | Every queued writer that sleeps goes on with all the bytes it had left, one on its way to sleep stays as it is, the queue is empty and no other thread changes |
| `Pipes.Pipe.ReadStep` | kernel/pipe/pipe.c:225-265 | One locked round: a byte is taken, or the end mark ends the read, or the reader queues or leaves |
| `Pipes.Pipe.ReadEnd` | kernel/pipe/pipe.c:261-265 | The reader leaves and the writers wake |
| `Pipes.Pipe.WriteStep` | kernel/pipe/pipe.c:267-298 | One locked round: a byte is added, or the writer queues and the readers wake |
| `Pipes.Pipe.WriteEnd` | kernel/pipe/pipe.c:294-298 | The writer leaves and the readers wake |
| `Pipes.Pipe.CloseWriter` | kernel/pipe/pipe.c:191-223 | The last writer leaves the byte 4 and the readers wake; refused exactly when it is the last and the buffer is full |
| `Pipes.Pipe.Park` | kernel/threading/thread.c:258-268 | A queued thread goes to sleep |
| `RingBuffers.RingBuffer.constructor` | kernel/data-structs/ring_buffer.c:4-12 | Empty, with the capacity asked for |
| `RingBuffers.RingBuffer.Consume` | kernel/data-structs/ring_buffer.c:14-33 | Takes the oldest byte; fails iff empty |
| `RingBuffers.RingBuffer.Produce` | kernel/data-structs/ring_buffer.c:35-57 | Adds a newest byte; fails iff full |
| `RingBuffers.RingBuffer.RemoveBack` | kernel/data-structs/ring_buffer.c:64-86 | Takes the newest byte; fails iff empty |
| `OpenFileTheorems.RunAll` | kernel/fs/oft.c:47-168 | Every sequence of open, pipe, close, dup2, fork, exit, calls and pipe traffic is a run of exact steps through states in which all counts are exact |
| `OpenFileTheorems.CountsExact` | kernel/fs/oft.c:107-168 | The count of an entry is the number of slots that name it, plus calls in progress, plus refused closes |
| `OpenFileTheorems.NothingDangles` | kernel/fs/oft.c:124-168 | Every slot is free or names an entry; with no slot, call or refused close left the table is empty |
| `OpenFileTheorems.PipeEndsExact` | kernel/pipe/pipe.c:174-223 | The reader and writer counts of a pipe are the slots open on its ends; a freed pipe has none |
| `OpenFileTheorems.Perform` | kernel/fs/cmds.c:14-147 | What every operation does to slots, entries, pipes and calls in progress, and which reference a refused close leaves behind; where it does not apply, nothing |
| `OpenFileTheorems.LeftBehind` | kernel/pipe/pipe.c:191-223 | Over any run, the references left behind are as many as the closes of a last writer that a full pipe refused |
| `OpenFileTheorems.AllGone` | kernel/fs/oft.c:124-168 | After any run that ends without processes and calls, every pipe is shut, and the table is empty if and only if no close was refused on the way |
| `OpenFileTheorems.WriteEndLost` | kernel/pipe/pipe.c:191-223 | A run after which no process is left and the entry of a write end is still in the table |
| `OpenFiles.FileTable.constructor` | kernel/fs/oft.c:19-32 | An empty table |
| `OpenFiles.FileTable.OftOpen` | kernel/fs/oft.c:47-105 | A new entry with one reference, at a place that was free, the others as before; without an inode, an error and no change |
| `OpenFiles.FileTable.OftClose` | kernel/fs/oft.c:124-168 | One reference less; the entry goes with the last one, and its place too if it is the last of the table; the others are as before |
| `OpenFiles.FileTable.PipeClose` | kernel/pipe/pipe.c:191-223 | One end less; refused exactly for the last writer of a pipe with 4096 bytes in it, whose end is gone all the same; otherwise the last writer leaves a byte and the last end frees the pipe |
| `OpenFileState.FallsOn` | kernel/pipe/pipe.c:191-223 | Closing ends one after the other is closing them together: the same mark, the same freeing, and the refusals add up |
| `OpenFiles.FileTable.KClose` | kernel/fs/kapi.c:128-143 | The reference is given up unless the pipe refuses, and then it never is; what becomes of the buffer and of the pipe |
| `OpenFiles.FileTable.AddReference` | kernel/fs/kapi.c:253-279 | One reference more, and one end more if it is a pipe |
| `OpenFiles.FileTable.Install` | kernel/fs/cmds.c:14-31 | The lowest free slot |
| `OpenFiles.FileTable.Open` | kernel/fs/cmds.c:65-77 | The lowest free slot names a new entry and nothing else changes; without an inode, nothing changes |
| `OpenFiles.FileTable.Close` | kernel/fs/cmds.c:79-111 | Each error exactly when the source reports it; otherwise that slot alone is free, and the pipe is shut, freed or refuses as its ends say |
| `OpenFiles.FileTable.Pin` | kernel/fs/cmds.c:33-63 | Each error exactly when the source reports it; otherwise the entry gains a call in progress |
| `OpenFiles.FileTable.Unpin` | kernel/fs/cmds.c:113-129 | The end of the call gives it back, and the entry goes if nothing else refers to it |
| `OpenFiles.FileTable.MakePipe` | kernel/pipe/pipe.c:68-150 | The two lowest free slots get the two ends of a new pipe and nothing else changes; without memory or an inode, nothing changes |
| `OpenFiles.FileTable.Dup2` | kernel/scheduler/process.c:745-777 | Fails exactly for a bad descriptor; otherwise `newfd` names what `oldfd` named, also when both are the same, and what was there is closed |
| `OpenFiles.FileTable.Fork` | kernel/scheduler/process.c:729-739 | The child has the parent's slots, with a reference and an end each |
| `OpenFiles.FileTable.Exit` | kernel/scheduler/process.c:466-496 | The process has no slots any more; other processes keep theirs; every pipe is shut, freed or refuses as its ends say, and each refusal leaves one reference behind |
| `ProcessForest.ProcessTable.constructor` | kernel/scheduler/process.c:573-614 | Init is the root |
| `ProcessForest.ProcessTable.Create` | kernel/scheduler/process.c:391-464 | The new process is a child of its parent; the table stays a forest |
| `ProcessForest.ProcessTable.Destroy` | kernel/scheduler/process.c:466-559 | Exactly the process and the zombies below it that only zombies separate from it go; the living children of what went belong to init, and the table is a forest again; terminates by the number of used slots |
| `ProcessForest.ReapedUnique` | kernel/scheduler/process.c:536-550 | The set of processes that go is determined |
| `ProcessForest.RunAll` | kernel/scheduler/process.c:391-559 | After every step of any run of creations, deaths and reapings the processes are a tree, and each step does exactly that |
| `ProcessForest.ReachesInit` | kernel/scheduler/process.c:536-550 | In such a table every process comes down from init |
| `ProcessForest.ListedOnce` | kernel/scheduler/process.c:391-464 | Every process but init stands once in the children of its live parent, and in no other list |
| `HashMaps.HashMap.constructor` | kernel/data-structs/hashmap.c:94-114 | An empty map |
| `HashMaps.HashMap.Find` | kernel/data-structs/hashmap.c:63-92 | The entry of a key, iff the map has it |
| `HashMaps.HashMap.Get` | kernel/data-structs/hashmap.c:188-198 | The value of a key, iff the map has it |
| `HashMaps.HashMap.Put` | kernel/data-structs/hashmap.c:148-186 | The map with the key set; fails iff the key is new and there is no room |
| `HashMaps.HashMap.Remove` | kernel/data-structs/hashmap.c:204-228 | The map without the key; true iff it was there |
| `ProcessGroups.KeyBack` | kernel/scheduler/process.c:109-116 | The key bytes of a group number give the number back |
| `ProcessGroups.KeysDiffer` | kernel/scheduler/process.c:109-116 | Different group numbers have different keys |
| `ProcessGroups.RunAll` | kernel/scheduler/process.c:118-173 | After every step of any run of create, setpgrp and destroy the index is the exact inverse of `pgid`, those in no group aside, and each step does exactly what the source does |
| `ProcessGroups.Perform` | kernel/scheduler/process.c:779-808 | Who is in which group, and who in none, after each operation, exactly |
| `ProcessGroups.NoneStray` | kernel/scheduler/process.c:118-173 | While memory can be had, no process is ever in no group |
| `ProcessGroups.Stranded` | kernel/scheduler/process.c:779-808 | A run after which the only process is in no group |
| `ProcessGroups.InOneGroup` | kernel/scheduler/process.c:109-173 | A process is once in the group of its number and in no other; the count of a group is its size and no group is empty |
| `ProcessGroups.Groups.Join` | kernel/scheduler/process.c:118-149 | Joins the group of its number; fails iff there is no such process, or the group is new and there is no room |
| `ProcessGroups.Groups.Quit` | kernel/scheduler/process.c:151-173 | Leaves its group; a group remains iff some other process is in it |
| `ProcessGroups.Groups.Create` | kernel/scheduler/process.c:391-464 | The group of the parent, or else a new one; in none iff that group is new and there is no room |
| `ProcessGroups.Groups.Destroy` | kernel/scheduler/process.c:497-497 | The process leaves its group and the table |
| `ProcessGroups.Groups.SetGroup` | kernel/scheduler/process.c:779-808 | Each outcome exactly when the source reports it; a failure leaves the process in its old group, or in none iff it was alone there and there is no room for it again |

## Left out

- Device drivers, boot, context switch, interrupts and the timer: hardware behaviour.
- Device I/O errors: reads and writes of blocks succeed.
- The block cache and the inode cache: the disk is a sequence of blocks.
- `size_t` wrap-around in sums: sizes are unbounded naturals; group numbers are 32-bit, the hash is 64-bit.
- TLB maintenance and the locks themselves: a lock-held region is one step.
- The walks over page tables go index by index; the code goes table by table and meets the same tables and entries in the same order.
- Kernel memory for page-table records, queues and lists: `kmalloc` is taken to succeed there.
- `fork` as one call: it is the creation of a space, a first touch for each page of the kernel stack, and the copy.
- The choice of inode number, thread number, process slot and pipe identity: parameters.
- `mkfs` layout arithmetic, `validate_superblock` and mounting: range checks.
- `kernel/memory/malloc.c`: the algorithm of `kmalloc.c` without the lock.
- `k_lseek` past the end of a file: its hole filling indexes the wrong block, so it refines no file.
- Mutexes, semaphores, condition variables and `thread_join`: they bypass the counters of the process.
- The thread teardown of exec.
- Signals, symbolic links, the root mount entries, procfs, devfs, tty, shell and user commands.
- The closing of a read end under a call in progress, and the freeing of a pipe under one.
- What runs past a buffer does: the outcome is `PastBuffer` or `Wild`, and nothing is said of what follows.
- Inodes.FileSystem.Clear: `skip_first` is at most 12, the number of direct blocks (its callers pass 0 and 1); `i_size` is not modelled here.
- FileStores.FileStore.Write: for a cursor within the file or append mode, and blocks below 12+2S, which lookup finds.
- FileStores.FileStore.Read: for blocks below 12+2S, which lookup finds.
- FileStores.FileStore.WriteThenRead: under the conditions of both.
- Directories.Directory.Lookup: below the root, for names that are not empty; the empty name is the end entry.
- Directories.Directory.Add: names are not empty.
- Directories.Directory.Remove: names are not empty.
- Cow.Memory.DropEntry: the entry is cleared with its page; the source leaves it in a table that is itself freed.
- OpenFiles.FileTable.MakePipe: the second `oft_open_file` and the metadata calls of `pipe` find the inode that the first one found.
- OpenFiles.FileTable.OftOpen: an inode cannot be had for whatever reason; the creation of a file by `open` is not modelled here.
- ProcessForest.ProcessTable.Create: the parent is live, as it is when it forks.
- ProcessForest.ProcessTable.Destroy: not of init.
- ProcessGroups.Groups.Create: the group is what is modelled; the other ways for `proc_create` to fail are not.
