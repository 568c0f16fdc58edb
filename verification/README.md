# Verified models of the Cute kernel

Cute is a small x86-64 kernel. This project models its hard state machines in Dafny and proves what they keep.
Code that changes state in place is modelled by classes and methods with loops; each is proved against a specification
on values, and the lemmas about that specification carry the properties. Nothing here executes the kernel.

| part | modules | main results |
|---|---|---|
| Ext2 driver | Bitmap, BitmapAlloc, Ext2Vol, Ext2File, Ext2Tree, Ext2Reach, Ext2Core | Allocator.Alloc, FileWrite, WriteThenRead, FileTruncate |
| Ext2 directories and links | Ext2Dir, Ext2DirWrite, Ext2DirOps, Ext2NewEntry, Ext2Live, Ext2SmallSlot, Ext2Samples, Ext2Unlink, Ext2Links, Ext2LinkSteps, Ext2Names, Ext2Ops, Ext2Runs, Ext2Path, Ext2Mount, Ext2Edge | NewDirEntry, NewEntryExact, SmallSlotExact, FileDelete, Ext2Runs.Run, CreateAtEdge, NameI |
| MLFQ scheduler | Sched, SchedRuns, SchedEpochs, SchedSlices, SchedCpu | TickInv, StarvationBound, LeavesWithin, OncePerEpoch, PrioritiesFade, RefinesRoundRobin, RunAccounted |
| Page tables | Paging, PagingRange, VmMap, VmKernel | MapRange, LinearIffGood, VmKmap, VmInit |
| Kernel heap | Buckets, Kmalloc, KernelMemory | LiveBuffers, Kfree, KernelMemory.Kmalloc |
| Runs of the allocators | AllocRuns | RunBitmaps, RunPages, RunHeap |
| Page allocator and boot sizing | FreePages, PageAlloc, E820 | GetFreePage, AddrToPage, Sufficient, ArchMemoryInit |
| Spinlocks | Spinlock, SpinlockCalls | RunCore, MutualExclusion, LockReturns, TrylockAnswers, SafeOrderExactly |
| Descriptor table | Unrolled | Insert, Lookup, RemoveKey, InsertAndRemove |
| Lists | ListRing | ListAdd, ListAddTail, ListDel, ListForEach |

## How the models read

- A panic or a failing assertion of the kernel is either shown unreachable, or the method returns `None`, `false` or an
  error there and its contract says exactly when.
- Ext2 metadata (superblock, group descriptors, inode table) lives in typed fields. The bitmap blocks are bytes, and the
  allocator works on them bit by bit. `meta` is the set of blocks that hold metadata; they are never free.
- `Written(v, w, n, from, to, buf)` says what a write did to the whole volume: the bytes of the stretch, every other
  byte of a mapped block, the size, the blocks taken and everything else unchanged.
- A directory is a sequence of bytes; `Parse` walks its records, `Lookup` and `Links` are what the directory means.
- `ext2_new_dir_entry()` writes back the struct that its scan read records into. Behind the bytes of the last record
  that struct still holds bytes of earlier reads (`Leftover`). What memory holds behind the struct, and the
  uninitialised memory that is written out as padding, are parameters (`behind`, `mem`); the results hold for every
  value of them.
- `FsOk` is the state of a volume in order: exact counters, block trees that are unshared and leak no block, tiled
  directories, and links_count equal to the number of entries for the root and all ordinary inodes.
- Where a method is proved against a function, the function is compared with a definition of its own: what truncation
  frees with chains of words on the disk (`Reachable`), path resolution with single lookups (`PathLaws`), the scheduler
  with the priority at which a thread is due (`Due`), the page table of the allocator with the memory map (`Usable`),
  and lock calls with the runs that they belong to (`During`).
- A run of the scheduler is any sequence of ticks and arrivals; threads are numbered in the order of their arrival.
- Page tables map numbers of 4-KB pages in the 48 translated bits, as in section 4.5 of volume 3A of the Intel SDM.
- Spinlock steps interleave arbitrarily; an interrupt may come whenever the flag allows it, and the interrupted code
  path waits on a stack.

## Where the code does not do what it is meant to

- `ext2_new_dir_entry()` can damage a directory in two ways; NewEntryExact says exactly when it does not, for every
  directory without duplicate names. `SafeAdd` is the condition that the runs check before each call.
  - Its last record is unused and too small for the new one: the code steps back twice. SmallSlotExact has the exact
    condition wherever the second step ends: on a record boundary, behind the inode number of a record, in its name or
    in its padding. Inside a record the directory survives only if a record length of at least twelve stands among stale
    bytes (SplitNeedsLength). SampleDamaged and SampleSplit are concrete directories that do not survive.
  - Its last record is in use and has no name (NamelessLast, and SampleNameless for a concrete directory).
  - If the new record does not arrive, the first kind may be damaged all the same (FailedExact).
- A record that ends exactly where the twelve direct blocks end is written, but the call reports EFBIG (AreaEdge).
  `file_new()` then frees the inode that the record names (FileNew). CreateAtEdge does so on a concrete volume that is
  in order and that `ext2_init()` accepts (EdgeOrder, EdgeMounts).
- `dir->flags &= !EXT2_INO_DIR_INDEX_FL` clears every flag: what is meant comes out if and only if no other flag was set
  (FlagsExactly, and FlagLost for one that is lost).
- `map_range` maps linearly if and only if, at each level, the range stays inside one entry or starts on one
  (LinearIffGood); the ranges of `vm_init` and `vm_kmap` do. MapMisaligned is a call on pages 256 to 799 that returns
  and leaves page 256 unmapped.
- Unlocking nested spinlocks outermost first turns interrupts on while the inner one is held: OutermostFirst is a run
  from the initial state, SafeOrderExactly the exact condition. Mutual exclusion does not depend on the order.
- `kfree()` refuses a live buffer in which the client stored the free signature at byte 8 (Kfree, both directions, and
  StoreFreeSignature).
- The scheduler comment says that just-queued threads go to the head of the default list; the code appends them.
- The comment on KERN_PHYS_END_MAX says 64 TB; its value is 256 GB, and the model uses the value.

## Model

| member | source | states |
|---|---|---|
| Bitmap.NatWithBits | lib/bitmap.c:68-87 | forcing one bit of a number changes that bit and no other, for every width |
| Bitmap.BitAt | lib/bitmap.c:56-63 | bit i of a buffer is bit i % 8 of byte i / 8 |
| Bitmap.BitWeight | lib/bitmap.c:56-63 | bit k of a number is the one of weight 2^k, for every number |
| Bitmap.BitsAfter | lib/bitmap.c:68-87 | setting or clearing a bit in its byte changes exactly that item of the bit sequence of the buffer |
| Bitmap.FirstBit | lib/bitmap.c:36-49 | the searches return the first bit with the wanted value, and -1 exactly when there is none |
| Bitmap.PutBit | lib/bitmap.c:68-87 | the buffer, read as a sequence of bits, changes in one place |
| BitmapAlloc.TotalIsFree | ext2/ext2.c:120-298 | if the group counters count the clear bits and padding bits are set, their sum is the number of free items: clear bits and free items correspond one to one across groups |
| BitmapAlloc.CountsAddUp | ext2/ext2.c:120-298 | the same for the first n groups, by induction over the groups |
| BitmapAlloc.GroupItems | ext2/ext2.c:132-152 | the free items of a group are its clear bits shifted by the base of the group, disjoint from those of earlier groups |
| BitmapAlloc.FreeAfter | ext2/ext2.c:144-152 | writing the bit of an item changes the status of that item alone |
| BitmapAlloc.AgreeAfter | ext2/ext2.c:120-298 | when one bit, its group counter and the total change together, all redundant counters stay exact |
| BitmapAlloc.FirstInGroup | ext2/ext2.c:132-138 | the first clear bit of the first group with one is the lowest free item |
| BitmapAlloc.Allocator.Alloc | ext2/ext2.c:217-261 | over bitmaps and counters: fails exactly when nothing is free, otherwise hands out the lowest free item, which was free and is not any more; counters stay exact |
| BitmapAlloc.Allocator.Search | ext2/ext2.c:230-240 | the search over the groups finds a clear bit exactly when something is free, and then that of the lowest free item |
| BitmapAlloc.Allocator.Dealloc | ext2/ext2.c:269-298 | the item, which was in use, is free again, nothing else changes, and the counters stay exact |
| BitmapAlloc.Allocator.InUse | lib/bitmap.c:92-107 | the bit of an item tells whether it is free |
| BitmapAlloc.ItemBit | ext2/ext2.c:230-246 | bit i of the bitmap of group g, counted from the lowest bit of the first byte, is 0 exactly if item first + g * per group + i is free |
| BitmapAlloc.Allocator.Write | ext2/ext2.c:246-252 | flipping one bit in the copied block and writing it back changes the status of one item and keeps bitmaps, group counters and total in agreement |
| Ext2Core.Ext2.BlockAlloc | ext2/ext2.c:217-261 | 0 exactly when no block is free; otherwise the lowest free block, nothing else changes and the superblock count is the number of free blocks |
| Ext2Core.BitmapsMean | ext2/ext2.c:132-152 | the same on a mounted volume: blocks are counted from the first data block, inodes from 1 |
| Ext2Core.Ext2.BlockDealloc | ext2/ext2.c:269-298 | a block in use becomes free, nothing else changes, and the superblock count is exact and in range, so the assertions hold |
| Ext2Core.Ext2.InodeAlloc | ext2/ext2.c:120-171 | 0 exactly when no inode is free; otherwise the lowest free inode gets a fresh image; free counts and used_dirs_count of every group stay exact |
| Ext2Core.Ext2.InodeDealloc | ext2/ext2.c:179-211 | an allocated inode becomes free; free counts and used_dirs_count stay exact |
| Ext2Core.SwitchInodeSound | ext2/ext2.c:120-211 | used_dirs_count of every group keeps counting the allocated directories of the group when an inode is taken or given back |
| Ext2Core.DirsFrame | ext2/ext2.c:120-211 | operations that keep the kind of every inode and the free inodes keep used_dirs_count exact |
| Ext2Core.Ext2.FreeCounted | ext2/ext2.c:217-298 | the free count of the superblock is the number of clear block bits, in every state that the operations can reach |
| Ext2Core.Ext2.FileRead | ext2/ext2.c:311-347 | the bytes of the file from the offset on, cut at the length and at the end of the file; nothing for an offset at or beyond the end, however large, or for other kinds of inode |
| Ext2Core.Ext2.FileWrite | ext2/ext2.c:357-405 | the exact result: EBADF for other kinds, EFBIG from the end of the twelve direct blocks on, ENOSPC exactly when the holes in the stretch outnumber the free blocks, else the bytes that fit; what was written, where it stopped and how many blocks it took; a file that grew has the sectors of the least number of whole blocks that hold it |
| Ext2Core.Ext2.WriteLoop | ext2/ext2.c:373-402 | the loop writes whole chunks; it takes one block per hole, stops at a block boundary when blocks run out, and completes exactly when they suffice |
| Ext2Core.WriteThenRead | ext2/ext2.c:311-405 | file_read of the stretch that file_write reports yields exactly the bytes written |
| Ext2Core.Ext2.IndirectBlockDealloc | ext2/ext2.c:756-784 | frees exactly the blocks of the tree below a pointer, for every level, and terminates on the level; a block is newly free if and only if it is at most that many blocks deep below the pointer |
| Ext2Core.Ext2.FileTruncate | ext2/ext2.c:790-817 | a block is newly free if and only if a chain of little-endian words leads to it from the 15 pointers: the twelve direct ones, at most one block deep below the 13th, two below the 14th, three below the 15th; each is freed once; all pointers, the size and i512 end at 0; the superblock count rises by their number; nothing else changes |
| Ext2Core.TruncatedReached | ext2/ext2.c:790-817 | the truncated volume has exactly the reachable blocks newly free, and fifteen pointers that are 0 |
| Ext2Reach.TreeReaches | ext2/ext2.c:756-784 | the blocks freed below a pointer of level n are those at most n blocks deep below it, where one block lists another if one of its 32-bit words is that number and not 0 |
| Ext2Reach.FileReaches | ext2/ext2.c:799-816 | the blocks freed for a file are those reachable from its fifteen pointers, with depth 0, 1, 2 and 3 |
| Ext2Core.EmptiedStep | ext2/ext2.c:802-816 | after i pointers, the tree below the next one is still unfreed and may be freed |
| Ext2File.StepWritten | ext2/ext2.c:375-402 | one chunk extends what was written, keeps every other byte of a mapped block of the file, and takes a block exactly for a hole |
| Ext2File.ReadBack | ext2/ext2.c:311-405 | after a write of a stretch, the content of the file there is the buffer |
| Ext2File.WrittenContent | ext2/ext2.c:357-405 | on a file without holes a write changes the content as overwriting a sequence does, extending it at its end |
| Ext2File.OtherFile | ext2/ext2.c:357-405 | writing one file leaves the bytes of every file with other blocks alone |
| Ext2File.NothingNeeded | ext2/ext2.c:381-387 | a write inside a file without holes takes no block |
| Ext2File.ProgressTakes | ext2/ext2.c:381-387 | at every point of a write the blocks taken are the holes met |
| Ext2File.ProgressEnd | ext2/ext2.c:381-387 | a write completes exactly if there are free blocks for all its holes |
| Ext2File.NeededCount | ext2/ext2.c:376-388 | the blocks a write needs are the pointers that are 0 among those of the blocks it touches |
| Ext2File.SectorsExact | ext2/ext2.c:396-400 | i512_blocks counts the 512-byte sectors of whole blocks, no block more than the size needs |
| Ext2File.WrittenSectors | ext2/ext2.c:396-400 | that holds of every file that a write made longer |
| Ext2File.ReadBlocks | ext2/ext2.c:328-344 | the copying loop over blocks yields the stretch of the file |
| Ext2Vol.DataSplice | ext2/ext2.c:64-106 | overwriting a stretch of one unshared block overwrites that stretch of the file and no other byte |
| Ext2Tree.GiveAllCounts | ext2/ext2.c:756-817 | freeing distinct blocks in use raises the number of free blocks by how many they are |
| Ext2Tree.ForestStep | ext2/ext2.c:772-782 | freeing the tree below one more entry of an indirect block is possible, and is freeing the longer forest |
| Ext2Tree.FileTreeStep | ext2/ext2.c:790-817 | the same for one more pointer of the inode |
| Ext2Dir.LookupStep | ext2/ext2.c:505-519 | one turn of the search: end of directory, a bad record, a hit, or the rest |
| Ext2Dir.RecordLayout | ext2/ext2.c:426-476 | the fields of a directory record, byte by byte, and the seven demands on them: validity if and only if all hold, and what the record then names |
| Ext2Dir.ParseSplit | ext2/ext2.c:426-521 | the records of a directory are those before a record boundary and those after it |
| Ext2Dir.PlacedLookup | ext2/ext2.c:569-709 | with a new record placed, the directory is exactly tiled, lists one more link, the new name resolves to its inode and every other lookup is unchanged |
| Ext2Dir.RemovedLookup | ext2/ext2.c:529-560 | with a record erased, tiling is kept, one link is gone and no lookup of another name changes |
| Ext2Dir.SameLastParse | ext2/ext2.c:616-656 | rewriting the last record with other padding changes no record |
| Ext2Dir.LookupConcat | ext2/ext2.c:489-521 | a lookup answers with the first live match in record order |
| Ext2Dir.OkNotBad | ext2/ext2.c:489-521 | a search in a tiled directory never meets a bad record |
| Ext2DirWrite.RewriteRecord | ext2/ext2.c:628-656 | writing back a record with another length and inode keeps its name and the records before it |
| Ext2DirWrite.NewRecord | ext2/ext2.c:672-688 | the two writes of a new record, over any old bytes, put a valid record that fills its block, with its file type at byte 7 and zeroes behind its name |
| Ext2DirWrite.ReadyPlaced | ext2/ext2.c:625-688 | a record written at the prepared offset is placed: the old records, less an unused last one, then the new one |
| Ext2DirWrite.StepBack | ext2/ext2.c:644-656 | stepping back from an unused last record that is too small stays inside its block, so the assertion on the offset holds |
| Ext2DirWrite.PlaceExact | ext2/ext2.c:625-656 | the new record goes behind the last one, or over it if it is unused, exactly if it fits there; otherwise into a new block |
| Ext2DirWrite.LastFillsBlock | ext2/ext2.c:616-656 | in a directory that ends on a block boundary the last record reaches the end of its block |
| Ext2DirWrite.ScannedStep | ext2/ext2.c:605-613 | each read of the scan replaces the beginning of the struct and leaves the rest from earlier reads |
| Ext2DirOps.FindDirEntry | ext2/ext2.c:489-521 | the first live record with the name, ENOENT for an absent, empty or overlong one, EIO exactly when a bad record comes first; it terminates on every directory content |
| Ext2DirOps.ScanLast | ext2/ext2.c:605-613 | the scan fails exactly on a directory with a bad record; otherwise it finds the last record and leaves the struct with that record's bytes over those of the earlier reads |
| Ext2DirOps.ScanTurn | ext2/ext2.c:605-613 | one turn of the scan: it ends on a tiled directory, stops at a bad record, or goes on with the next one |
| Ext2DirOps.DirWrite | ext2/ext2.c:357-405 | a write inside one block of a directory takes effect as overwriting its bytes, or changes nothing; ENOSPC only when no block is free |
| Ext2DirOps.DirWritten | ext2/ext2.c:357-405 | what the result of a write inside one block means for the directory: when it fails, what it takes and what the directory then holds |
| Ext2DirOps.PrepareLast | ext2/ext2.c:625-656 | making room behind the last record takes no block and yields the prepared bytes and offset |
| Ext2DirOps.TrimLast | ext2/ext2.c:630-634 | the last record is cut to its minimal length |
| Ext2DirOps.StretchLast | ext2/ext2.c:646-655 | the last record is stretched to the end of its block |
| Ext2NewEntry.NewDirEntry | ext2/ext2.c:569-709 | errors for bad names, duplicates and bad directories change nothing; otherwise, if the last record allows it, the record arrives and the directory is the old one with one more name, or the call fails and lists the same records; whatever the last record is, every byte that the directory then has is stated: file type, padding and zero fill included; links_count rises exactly on success |
| Ext2NewEntry.AppendName | ext2/ext2.c:600-690 | the same for a name that was missing, up to the link count, for every content of memory |
| Ext2NewEntry.FindLast | ext2/ext2.c:605-613 | finds the last record and what memory holds behind its bytes: the rest of the struct, then what follows it |
| Ext2NewEntry.AddRecord | ext2/ext2.c:605-690 | making room and writing the record, with the outcome above |
| Ext2NewEntry.RecordAdds | ext2/ext2.c:616-690 | the bytes after both writes are the old directory with exactly one more name |
| Ext2NewEntry.RoomParse | ext2/ext2.c:616-656 | before the record arrives in a new block, the directory lists what it did |
| Ext2NewEntry.PutRecord | ext2/ext2.c:670-688 | the two writes arrive together or not at all, except at the end of the supported area |
| Ext2NewEntry.MakeRoom | ext2/ext2.c:625-656 | room is made for every directory content, and the offset is where the record goes |
| Ext2NewEntry.MissOk | ext2/ext2.c:590-613 | a name that is looked up and missed proves the directory tiled |
| Ext2NewEntry.FlagsExactly | ext2/ext2.c:614 | the flags come out as meant, the index flag cleared and all others kept, if and only if no other flag was set; the result is 0 always |
| Ext2NewEntry.FlagLost | ext2/ext2.c:614 | the immutable flag is lost |
| Ext2NewEntry.ClearFlags | ext2/ext2.c:614 | the directory's flags are 0 afterwards and its bytes are as before |
| Ext2Live.GainsExactly | ext2/ext2.c:569-709 | a listing without duplicate names gains exactly one name if and only if its live records stay as they are |
| Ext2Live.StaysNamed | ext2/ext2.c:590-597 | then no name occurs twice afterwards either |
| Ext2Live.MeansExactly | ext2/ext2.c:569-709 | a listing without duplicate names keeps all lookups and links if and only if its live records stay as they are |
| Ext2Live.NamedBy | ext2/ext2.c:489-521 | as many records as there are links, each found by its own name, means that no name occurs twice |
| Ext2Live.RemovedNamed | ext2/ext2.c:544-548 | erasing a record of a listing without duplicate names leaves none, and its name is not found any more |
| Ext2Names.AddedNames | ext2/ext2.c:590-709 | adding a missing name to a directory leaves no name twice in the volume |
| Ext2Names.ErasedNames | ext2/ext2.c:544-548 | erasing a record leaves no name twice in the volume, and its own name is missing then |
| Ext2Names.WithLinksNames | ext2/ext2.c:550-551 | changing links_count leaves no name twice |
| Ext2Names.ImageNames | ext2/ext2.c:552-555 | taking or releasing an inode leaves no name twice |
| Ext2Live.LiveLookup | ext2/ext2.c:489-521 | the live records alone decide every lookup |
| Ext2Live.LiveLinks | ext2/ext2.c:489-521 | the live records alone decide the links |
| Ext2Live.ParseOrdered | ext2/ext2.c:489-521 | the records of a directory lie in rising order inside it |
| Ext2SmallSlot.NewEntryExact | ext2/ext2.c:569-709 | every directory without duplicate names gains exactly the new name if and only if its last record allows it, or is unused and too small and the second step back, which ends at a known offset in a known record, keeps the live records: on a boundary all swallowed records were unused, behind an inode number never, further on as SmallSlotExact says |
| Ext2SmallSlot.FailedExact | ext2/ext2.c:625-709 | when the new record does not arrive, lookups and links are as before if and only if the bytes left keep the live records |
| Ext2SmallSlot.NamelessLast | ext2/ext2.c:628-656 | a last record in use without a name, with room behind it, is cut to eight bytes, and the directory is no longer tiled |
| Ext2SmallSlot.SmallSlotExact | ext2/ext2.c:628-656 | an unused last record that is too small is written over the directory from some record on: it survives if and only if, on a boundary, all swallowed records were unused, and inside a record, the header and meaning of that record survive and the bytes behind it are records with the same live ones |
| Ext2SmallSlot.BoundaryExact | ext2/ext2.c:628-656 | on a boundary the condition is exact also with duplicate names |
| Ext2SmallSlot.SplitHeader | ext2/ext2.c:628-656 | a step back that ends behind an inode number leaves a record of length 0, always |
| Ext2SmallSlot.SplitExact | ext2/ext2.c:628-656 | a step back that ends behind a header: the live records are the same if and only if the split record keeps its meaning and the bytes behind it hold the live records that were there |
| Ext2SmallSlot.NameLost | ext2/ext2.c:628-656 | a step back that ends in the name of a live record loses that name |
| Ext2SmallSlot.StaleLength | ext2/ext2.c:628-656 | the record length found behind a split record comes from the stale bytes of the unused one, or from memory behind it |
| Ext2SmallSlot.LeftoverAt | ext2/ext2.c:605-656 | that memory holds bytes of the record read before |
| Ext2SmallSlot.SplitNeedsLength | ext2/ext2.c:628-656 | inside a record the directory survives only if a length of at least twelve stands in the stale bytes, or in the split record itself |
| Ext2SmallSlot.AddedLive | ext2/ext2.c:672-688 | a record in a new block adds its name if and only if the bytes before it keep the live records |
| Ext2SmallSlot.AppendedParse | ext2/ext2.c:672-688 | a record in a new block leaves all records before it as they read |
| Ext2SmallSlot.FromCall | ext2/ext2.c:605-688 | a call on such a directory whose record arrives leaves exactly the bytes that the results above are about |
| Ext2SmallSlot.Holder | ext2/ext2.c:644-656 | every offset before the last record lies in some record, so the cases are all there are |
| Ext2SmallSlot.BadRecord | ext2/ext2.c:426-476 | a bad record at a reached offset makes the directory untiled |
| Ext2Samples.SampleDamaged | ext2/ext2.c:628-656 | a concrete directory of three records where adding a name of five bytes loses another name |
| Ext2Samples.SampleSplit | ext2/ext2.c:628-656 | a concrete directory of two records where the step back ends in padding and the directory is lost |
| Ext2Samples.SampleNameless | ext2/ext2.c:628-656 | a concrete directory with one nameless record that any new name leaves untiled |
| Ext2Unlink.HitAt | ext2/ext2.c:489-521 | what a lookup finds is a live record with that name at a record boundary |
| Ext2Unlink.ErasedRemoves | ext2/ext2.c:544-548 | writing a record back with inode 0 erases it and keeps all others |
| Ext2Unlink.EraseEntry | ext2/ext2.c:544-548 | the write takes no block and changes the directory to the erased one |
| Ext2Unlink.Release | ext2/ext2.c:552-555 | truncating and deallocating frees the inode and exactly its blocks |
| Ext2Links.CountChange | ext2/ext2.c:529-743 | if one directory changes, the number of entries that name an inode changes by what that directory lists |
| Ext2Links.FileTreeFrame | ext2/ext2.c:756-817 | the block tree of a file depends only on the blocks in it |
| Ext2Links.DirTree | ext2/ext2.c:357-405 | a directory owns exactly its mapped direct blocks |
| Ext2Links.KeptFs | ext2/ext2.c:529-743 | a change of one inode that keeps the others and accounts for its links and its blocks keeps the whole volume in order |
| Ext2Links.KeptOwned | ext2/ext2.c:529-743 | no block leaks: a block that moved only between the free blocks and that inode still has an owner |
| Ext2LinkSteps.AddedStep | ext2/ext2.c:569-709 | adding a name adds one entry for its inode and keeps the volume in order |
| Ext2LinkSteps.RemovedStep | ext2/ext2.c:544-548 | erasing a record removes one entry and keeps the volume in order |
| Ext2LinkSteps.WithLinksStep | ext2/ext2.c:550-551 | changing links_count shifts the difference between links and entries by as much |
| Ext2LinkSteps.AllocStep | ext2/ext2.c:722-724 | a new inode has no entries, links or blocks |
| Ext2LinkSteps.ReleaseStep | ext2/ext2.c:552-555 | releasing an inode without entries and links keeps the volume in order |
| Ext2LinkSteps.LiveUsed | ext2/ext2.c:540-551 | a live record names an allocated inode with a link to give up |
| Ext2LinkSteps.TouchedMoved | ext2/ext2.c:357-405 | a write to a directory takes blocks from the free ones for that directory only |
| Ext2Ops.LinkEntry | ext2/ext2.c:569-709 | a new name for an inode in use: links_count rises exactly on success, the listing gains exactly that name on success and at the edge of the supported area, where the call fails with EFBIG |
| Ext2Ops.HardLink | ext2/ext2.c:569-709 | a hard link keeps every inode's links_count equal to the number of its entries if and only if the name does not slip in at the edge; and what the call returns |
| Ext2Ops.OutcomeRet | ext2/ext2.c:576-690 | what adding a name returns: ENAMETOOLONG above 254 bytes, ENOENT for none, EEXIST, EIO, EFBIG exactly when the new record does not end before the twelve direct blocks do, ENOSPC exactly when it needs a block and none is free, else success |
| Ext2Ops.FileNew | ext2/ext2.c:718-743 | success hands out a free inode with one link, one entry, size 0, no sectors, no flags and no blocks; the result is that of adding the name; failure gives the inode back and the listing is as before, except at the edge: there the call fails with EFBIG, a live entry names a free inode and the volume is not in order; ENOSPC when no inode is free |
| Ext2Ops.Dangling | ext2/ext2.c:718-743 | a live entry that names a free inode means that the volume is not in order |
| Ext2Edge.CreateAtEdge | ext2/ext2.c:718-743 | on a concrete volume that is in order and mounts, creating a file fails with EFBIG and leaves a live entry for a free inode |
| Ext2Edge.EdgeMounts | ext2/ext2.c:870-985 | that volume passes the checks of ext2_init(): 64 KB, metadata blocks inside their group, bitmaps of one block, a root directory whose "." and ".." resolve to it |
| Ext2Edge.EdgeMount | ext2/ext2.c:870-985 | there is such a mounted volume, bitmaps and counters included |
| Ext2Edge.EdgeOrder | ext2/ext2.c:718-743 | that volume is in order: unshared blocks, exact link counts, no leak |
| Ext2Edge.EdgeFits | ext2/ext2.c:605-656 | its root directory of twelve blocks has room for a record that ends with them |
| Ext2Edge.EdgeLists | ext2/ext2.c:489-521 | that directory lists "." and ".." and nothing else |
| Ext2Ops.FileDelete | ext2/ext2.c:529-560 | ENOENT changes nothing; otherwise one link and one entry less, and the inode and exactly the blocks that its fifteen pointers reach are freed exactly when it was the last link; no other name is affected, and in a volume without duplicate names this one is not found any more |
| Ext2Ops.FreedTree | ext2/ext2.c:552-555 | the blocks that deleting the last link makes free are those that the fifteen pointers reach |
| Ext2Ops.NewEntryStep | ext2/ext2.c:569-709 | the outcome of ext2_new_dir_entry keeps the volume in order |
| Ext2Ops.GoneStep | ext2/ext2.c:552-555 | with the last link gone, the inode and exactly its blocks are free and the volume is in order |
| Ext2Ops.EraseStep | ext2/ext2.c:544-548 | erasing the found record leaves its inode with one link more than entries and no other lookup changed |
| Ext2Ops.AreaEdge | ext2/ext2.c:680-688 | a record that ends where the 12 blocks end: the call fails with EFBIG and the name is added all the same |
| Ext2Ops.EdgeStep | ext2/ext2.c:680-700 | its inode then has one entry more than links, and nothing else is out of order |
| Ext2Ops.ArrivedIsOk | ext2/ext2.c:680-700 | away from that edge the name is there exactly when the call succeeds |
| Ext2Runs.LinksExact | ext2/ext2.c:529-743 | in a volume in order links_count of the root and of ordinary inodes is the number of live entries, an ordinary inode is free exactly when that number is 0, its blocks are in use and unshared |
| Ext2Runs.BlocksExact | ext2/ext2.c:529-743 | in a volume in order a data block is in use exactly when it belongs to an inode |
| Ext2Runs.Step | ext2/ext2.c:529-743 | every operation keeps the volume in order |
| Ext2Runs.Run | ext2/ext2.c:529-743 | over every sequence of file creations, hard links and deletions, each with its own content of memory, links_count is the number of live entries, an ordinary inode is free exactly when that number is 0, a block is free exactly when no inode owns it, and no directory comes to list a name twice |
| Ext2Runs.CanAdd | ext2/ext2.c:605-656 | decides, before a call, whether the last record of the directory lets a name be added safely, away from the edge |
| Ext2Runs.LastUnique | ext2/ext2.c:605-613 | a directory has one last record |
| Ext2Path.NameI | ext2/ext2.c:824-865 | for every path equals folding directory lookup over its components; ENOENT for no path, inode 2 for a slash; a name alone is looked up in the working directory and behind one slash in inode 2, ENAMETOOLONG above 255 bytes; a path that starts with a slash means the same from every working directory; cut at any slash before a component, the rest resolves from what the beginning resolves to; a slash at the end asks for a directory |
| Ext2Path.OneName | ext2/ext2.c:833-861 | a name alone means what the working directory lists, and behind one slash what inode 2 lists |
| Ext2Path.Absolute | ext2/ext2.c:833-836 | an absolute path means the same from every working directory |
| Ext2Path.Behind | ext2/ext2.c:842-861 | the path a / b means what b means from where a leads; a / means a if that is a directory, and is ENOTDIR if not |
| Ext2Path.PathLaws | ext2/ext2.c:824-865 | these laws together, for every path and every slash at which it is cut |
| Ext2Path.Walk | ext2/ext2.c:838-865 | the loop over the components resolves the path, terminates, and its is_dir assertion holds |
| Ext2Path.RepeatedSlash | ext2/ext2.c:824-865 | repeating a slash never changes what a path resolves to, errors included |
| Ext2Path.FirstError | ext2/ext2.c:824-865 | the error of the first failing component is the result, whatever follows |
| Ext2Path.SlashSplits | ext2/ext2.c:842-861 | a slash separates the components before it from those after it |
| Ext2Path.SkipSlashes | ext2/ext2.c:844-849 | skipping slashes keeps what is left to resolve |
| Ext2Path.ScanName | ext2/ext2.c:853-856 | the scan stops at the end of the component, or after 255 bytes exactly when it is longer |
| Ext2Path.Descend | ext2/ext2.c:858-860 | one lookup resolves one component |
| Sched.BootInv | kern/sched.c:56-122 | the initial state satisfies the invariant |
| Sched.EnqueueInv | kern/sched.c:181-195 | an enqueue at any time keeps the invariant: one place per thread, queued threads with runtime 0, no queued priority above the default one, none in active above the current one |
| Sched.TickInv | kern/sched.c:279-336 | every tick keeps the invariant |
| Sched.DispatchPlaces | kern/sched.c:204-249 | dispatching takes one thread from where it was and leaves every other in its place, swap included |
| Sched.PickFacts | kern/sched.c:257-274 | what is dispatched is a known thread other than the current one |
| Sched.SwitchedInv | kern/sched.c:257-274 | preemption keeps the invariant |
| SchedRuns.Run | kern/sched.c:143-336 | every run of ticks and arrivals keeps the invariant |
| SchedRuns.StarvationBound | kern/sched.c:204-249 | a thread in an active runqueue of n threads is dispatched within 2 * n dispatches and within 2 * n * RR_INTERVAL ticks, whatever arrives |
| SchedRuns.ActiveBound | kern/sched.c:279-310 | the same with the exact bound, which counts whose turn it is and the slice already used |
| SchedRuns.LeavesWithin | kern/sched.c:104-121 | a just-queued thread with j ahead of it has left that list for good within 2 * (j + 1) dispatches |
| SchedRuns.JustQueuedBound | kern/sched.c:204-249 | the same with the exact bound for each turn |
| SchedRuns.GoneForGood | kern/sched.c:181-249 | a thread that left the just-queued list never returns to it |
| SchedEpochs.OncePerEpoch | kern/sched.c:204-249 | between two swaps no thread is dispatched twice |
| SchedEpochs.PrioritiesFall | kern/sched.c:204-249 | between two swaps dispatches from active have non-increasing priority |
| SchedEpochs.PicksConserve | kern/sched.c:204-249 | without a swap, dispatches of a thread and its places in waiting add up to what was there or arrived |
| SchedEpochs.RoundRobin | kern/sched.c:279-336 | with all threads at the lowest priority and no arrivals, a tick is a turn of one FIFO queue |
| SchedEpochs.RefinesRoundRobin | kern/sched.c:279-336 | over whole runs the two runqueues refine that single queue, active followed by expired |
| SchedEpochs.RunAccounted | kern/sched.c:284-310 | over every run the runtimes add up to sys_ticks, and each prio_map to its runtime |
| SchedEpochs.NextAccounted | kern/sched.c:284-310 | one event keeps that |
| SchedEpochs.BootAccounted | kern/sched.c:56-122 | it holds at the start |
| SchedSlices.PrioritiesFade | kern/sched.c:204-310 | over every run of ticks and arrivals, dispatch number j of a thread that is due at priority q has priority q - j, down to 0 |
| SchedSlices.NewcomerFades | kern/sched.c:181-310 | a thread that is queued in the run or just before it is first dispatched at priority 10, then one lower each time, and from its eleventh slice on at 0 |
| SchedSlices.BootFades | kern/sched.c:56-122 | the thread that boots the CPU comes back at priority 9, then one lower each time |
| SchedSlices.EveryDue | kern/sched.c:143-195 | every thread of a reachable state is due at exactly one priority, at most 10 |
| SchedSlices.NextDue | kern/sched.c:204-310 | one event dispatches a thread at the priority at which it is due, and then it is due one lower; otherwise it stays due there, over swaps too |
| SchedSlices.DispatchWaits | kern/sched.c:204-249 | dispatching takes a thread at the priority at which it waits, 10 for just-queued ones, and leaves the others at theirs |
| SchedSlices.SliceEnds | kern/sched.c:299-310 | a tick that dispatches puts the old thread at the end of expired[prio - 1], or of expired[0], and changes no other list |
| SchedSlices.SliceLength | kern/sched.c:299-305 | a tick dispatches exactly if it is the second one of the slice, or a later one, and there is another thread |
| SchedSlices.BootDispatch | kern/sched.c:104-122 | the first dispatch of every run after boot takes the first thread that was queued, at priority 10 |
| SchedSlices.NextCharges | kern/sched.c:284-293 | a tick adds one to the runtime of the thread on the CPU and to its prio_map at its priority, and nothing to any other |
| SchedSlices.StatisticsExact | kern/sched.c:284-293 | over every run prio_map[q] of a thread counts the ticks in which it ran at priority q |
| SchedCpu.HighestPrio | include/sched.h:64-71 | the highest non-empty list, or -1 when there is none |
| SchedCpu.PerCpu.constructor | kern/sched.c:349-375 | the initial state, which satisfies the invariant |
| SchedCpu.PerCpu.SchedEnqueue | kern/sched.c:181-195 | a new thread at the tail of the just-queued list; the invariant is kept |
| SchedCpu.PerCpu.SwapQueues | kern/sched.c:218-228 | the loop moves the just-queued threads in order to the tail of the default list of the new active runqueue |
| SchedCpu.PerCpu.DispatchRunnable | kern/sched.c:204-249 | dispatches exactly as the specification whose conservation, bounds and epochs are proved |
| SchedCpu.PerCpu.Preempt | kern/sched.c:257-310 | the thread that ran joins the end of the expired list one priority below its own, or of list 0; the other lists stay, and the new thread runs at its priority; none of the assertions can fail, the one on the empty list node included |
| SchedCpu.PickedOff | kern/sched.c:261-263 | a dispatched thread is in no list any more |
| SchedCpu.PerCpu.SchedTick | kern/sched.c:279-336 | switches threads exactly from the second tick of a slice on, if there is another thread; the old one is then the last of the expired list one priority below its own, or of list 0, and otherwise keeps its priority; the invariant is kept, the assertions hold and the panic is unreachable |
| Paging.IndexIs | include/paging.h:97-160 | exactly the pages behind entry i of a table have index i there |
| Paging.IndexInside | include/paging.h:97-160 | inside a table the index counts the entries from its start |
| Paging.IndexDigits | include/paging.h:97-160 | the four indices are the base-512 digits of a page number, the lowest at level 1 |
| Paging.WalkKept | mm/vm_map.c:36-187 | changes below one entry leave every walk outside of it as it was |
| Paging.HangWalk | mm/vm_map.c:79-83 | a new empty table changes no walk |
| Paging.EntryWalk | mm/vm_map.c:61-187 | a walk goes through an entry exactly for the addresses it covers |
| Paging.LinearTrans | mm/vm_map.c:61-187 | two adjacent parts mapped linearly are mapped linearly as one |
| PagingRange.GoodPart | mm/vm_map.c:61-187 | in an aligned range each entry is handed a part that is aligned again, and the parts tile the range |
| PagingRange.FaultyPart | mm/vm_map.c:61-187 | in a misaligned range the first entry is handed a misaligned part or one that is too long |
| PagingRange.Entries | mm/vm_map.c:75-77 | the loop visits the entries from that of the first page to that of the last |
| PagingRange.AlignedGood | mm/vm_map.c:438-454 | a range that starts where a table starts is aligned for all lower levels |
| PagingRange.GoodReturns | mm/vm_map.c:61-187 | on an aligned range no part ends before it starts or is too long, so no panic but for lack of pages |
| PagingRange.TurnTables | mm/vm_map.c:75-96 | one turn of the loop needs at most one new table and those of its part |
| VmMap.LeafEffect | mm/vm_map.c:36-52 | filling a page table maps the range, or leaves its first page as it was when the range is shifted |
| VmMap.EffectStep | mm/vm_map.c:75-96 | one turn of a loop extends the mapped part and keeps all other walks |
| VmMap.EffectEnd | mm/vm_map.c:61-187 | after the last turn the whole range is mapped |
| VmMap.PageTables.FillLeaf | mm/vm_map.c:36-52 | map_pml1_range maps the pages of the range and no other |
| VmMap.PageTables.NextTable | mm/vm_map.c:79-85 | the table below an entry, fresh and empty if absent; no walk changes |
| VmMap.PageTables.MapEntries | mm/vm_map.c:61-187 | the loop over the entries of a table maps an aligned range linearly |
| VmMap.PageTables.MapRange | mm/vm_map.c:36-192 | after map_range every page of an aligned range walks to pstart + (v - vstart) and every other address as before; a misaligned one leaves the walk of its first page unchanged; where no part is too long or negative, which includes all aligned ranges, it fails only when fewer pages are left than the range may need tables |
| VmKernel.LinearIffGood | mm/vm_map.c:36-192 | the range is mapped linearly, all else unchanged, if and only if at each level it stays inside one entry or starts on one |
| VmKernel.CrossingIsBad | mm/vm_map.c:61-97 | a range that crosses a 2-MB boundary without starting on one does not meet the alignment condition |
| VmKernel.CrossingUnmapped | mm/vm_map.c:61-97 | a call on such a range that returns has left the walk of its first page as it was |
| VmKernel.MapMisaligned | mm/vm_map.c:61-97 | the call for pages 256 to 799 on empty tables returns, and page 256 is not mapped |
| VmKernel.CrossingReturns | mm/vm_map.c:61-97 | that call panics for lack of pages only, and four are enough |
| VmKernel.KernelRangesGood | mm/vm_map.c:438-454 | both ranges of vm_init meet the alignment condition |
| VmKernel.GranuleGood | mm/vm_map.c:419-429 | every call from vm_kmap meets the alignment condition |
| VmKernel.GranuleMapped | mm/vm_map.c:422-429 | mapping one granule keeps every granule wholly mapped or wholly unmapped |
| VmKernel.ProbeTells | mm/vm_map.c:422-429 | probing one address of a granule tells whether all of it is mapped |
| VmKernel.VaddrIsMapped | mm/vm_map.c:369-398 | true exactly when the four-level walk finds a page |
| VmKernel.MapGranules | mm/vm_map.c:422-429 | after the loop every granule of the request is mapped, walks outside are unchanged; if all were mapped already, nothing changes and nothing is allocated |
| VmKernel.VmKmap | mm/vm_map.c:405-432 | every page of the request walks to its own physical page, granules stay whole, walks outside the window are unchanged, repeating the call allocates nothing |
| VmKernel.VmInit | mm/vm_map.c:438-454 | from empty tables exactly the kernel text and the physical window are mapped, in whole granules |
| VmKernel.BootedGranular | mm/vm_map.c:438-454 | after vm_init every granule is wholly mapped or wholly unmapped |
| Buckets.BucketFor | include/kmalloc.h:100-121 | the smallest bucket that holds the size |
| Buckets.Doubling | include/kmalloc.h:100-121 | bucket 4 has 16 bytes, each next one twice as many, bucket 12 a page |
| Buckets.SlotsApart | mm/kmalloc.c:119-143 | two different buffers of any buckets do not overlap |
| Buckets.BucketPop | mm/kmalloc.c:82-111 | taking the head keeps the in-buffer list acyclic, exact and of length totalfree |
| Buckets.BucketPush | mm/kmalloc.c:153-190 | giving a buffer back keeps the list acyclic, exact and of length totalfree |
| Buckets.BucketFrame | mm/kmalloc.c:82-190 | a change of memory outside the first 16 bytes of the free buffers keeps the bucket |
| Buckets.TokensChain | mm/kmalloc.c:119-143 | a tokenized page is a free list of all its buffers, each once |
| Buckets.PageSlots | mm/kmalloc.c:119-143 | the buffers of a page are the aligned addresses in it |
| Kmalloc.LiveBuffers | mm/kmalloc.c:82-190 | live buffers are aligned, disjoint from each other and from free ones, and totalfree + live = totalpages * PAGE_SIZE / size |
| Kmalloc.PoppedOk | mm/kmalloc.c:82-111 | allocation keeps the heap of all buckets in order and changes memory inside the buffer only |
| Kmalloc.PushedOk | mm/kmalloc.c:153-190 | freeing keeps the heap in order and changes memory inside the buffer only |
| Kmalloc.WrittenOk | mm/kmalloc.c:153-190 | any write inside a live buffer keeps the heap in order |
| Kmalloc.RefilledOk | mm/kmalloc.c:119-143 | a fresh page becomes the free list of an empty bucket and the heap stays in order |
| Kmalloc.SparesOthers | mm/kmalloc.c:82-190 | a change inside one buffer leaves every other live buffer alone |
| Kmalloc.SlotStatus | include/kmalloc.h:64-77 | an aligned address in a page of its bucket that lacks the free signature is live |
| Kmalloc.FreeCheck | mm/kmalloc.c:160-179 | the checks of kfree single out the live buffers without the free signature |
| Kmalloc.KernelHeap.Tokenize | mm/kmalloc.c:119-143 | the loop links all buffers of a page and writes nothing else |
| Kmalloc.KernelHeap.Refill | mm/kmalloc.c:98-102 | the bucket is filled; no live buffer changes |
| Kmalloc.KernelHeap.Alloc | mm/kmalloc.c:82-111 | a buffer that was not live, signed as allocated; every live buffer keeps its bytes; fails only when the page allocator is empty |
| Kmalloc.KernelHeap.Kmalloc | include/kmalloc.h:100-121 | a fresh, aligned buffer of at least the size; fails only above a page or without pages; takes a page exactly when the bucket is empty; every live buffer keeps its bytes |
| Kmalloc.KernelHeap.Kfree | mm/kmalloc.c:153-190 | accepts exactly the live buffers that do not hold the free signature at byte 8; the buffer returns to its bucket, the other live buffers keep their bytes |
| Kmalloc.KernelHeap.ClientWrite | mm/kmalloc.c:153-190 | a client write inside a live buffer keeps the heap in order |
| Kmalloc.StoreFreeSignature | mm/kmalloc.c:160-179 | a client that stores the free signature at byte 8 of its buffer cannot free it |
| KernelMemory.Kmalloc | mm/kmalloc.c:82-143 | on top of the page allocator: fails exactly above a page, or when the bucket is empty and no page is free; the buffer is fresh, every live buffer keeps its bytes, and every page of a bucket is a page in use |
| KernelMemory.FromNewPage | mm/kmalloc.c:98-143 | an empty bucket takes a page that was free and that no other bucket has |
| KernelMemory.FreeUnowned | mm/kmalloc.c:119-143 | a free page belongs to no bucket |
| FreePages.ZonesSplit | mm/page_alloc.c:96-109 | pages from 1 MB up to 1 GB belong to the first zone, all others up to 256 GB to the second |
| FreePages.ZoneOf | mm/page_alloc.c:157-180 | the zone of highest priority among those that cover the page |
| FreePages.ZonePop | mm/page_alloc.c:254-283 | taking the first page keeps the freelist acyclic, exact and of length freepages_count |
| FreePages.ZonePush | mm/page_alloc.c:323-341 | putting a page in front keeps it so |
| FreePages.ZoneExtend | mm/page_alloc.c:213-223 | a new descriptor keeps it so |
| FreePages.RangePage | mm/page_alloc.c:233-246 | the page of descriptor k of a range lies in the range, k pages from its start |
| PageAlloc.FoundPage | mm/page_alloc.c:352-378 | a range that covers an address has the descriptor of its page, and with disjoint ranges no other descriptor has that page |
| PageAlloc.NotFound | mm/page_alloc.c:352-378 | if no range covers the address no descriptor has its page |
| PageAlloc.OneDescriptor | mm/page_alloc.c:192-246 | with disjoint ranges a page has one descriptor |
| PageAlloc.GrownOk | mm/page_alloc.c:213-223 | a new free page keeps all freelists exact |
| PageAlloc.RangeAdded | mm/page_alloc.c:192-246 | adding a range keeps the reverse map describing every descriptor |
| PageAlloc.PageAllocator.GetFromZone | mm/page_alloc.c:254-283 | the first page of the freelist of the zone, which was free and is not any more; nothing exactly when freepages_count is 0 |
| PageAlloc.PageAllocator.GetFreePage | mm/page_alloc.c:285-311 | fails exactly when no zone of the request has a free page, and changes nothing then; otherwise the page was free, lies in the zone asked for, and the zone assertions hold |
| PageAlloc.PageAllocator.FreePage | mm/page_alloc.c:323-341 | panics exactly on a free page; otherwise that page alone becomes free, is the first of the freelist of its zone, and the count of the zone rises by one |
| PageAlloc.PageAllocator.AddrToPage | mm/page_alloc.c:352-378 | inverts page_address for every byte of every page when the ranges are disjoint; fails exactly when no descriptor has the page |
| PageAlloc.AddPage | mm/page_alloc.c:213-223 | one page enters the table and the freelist of its zone |
| PageAlloc.AddRange | mm/page_alloc.c:192-246 | the pages of the range get consecutive descriptors, all free, the range enters the reverse map, and no assertion fails |
| AllocRuns.RunBitmaps | ext2/ext2.c:120-298 | over every run of allocations and deallocations no block or inode is handed out twice, none is lost, none is refused while one is free, and the total counter is the number of free ones |
| AllocRuns.HeldChanges | ext2/ext2.c:217-298 | what a client holds after a call: one item more with an answer, without the one given back, and otherwise the same |
| AllocRuns.RunPages | mm/page_alloc.c:285-341 | over every run of get_free_page() and free_page() no page is handed out twice, none is lost, none is refused while a page that may be handed out is free, and free_page() never panics on a page that is held |
| AllocRuns.RunHeap | mm/kmalloc.c:82-190 | over every run of kmalloc(), kfree() and writes by a client, its buffers are live, different and hold what was last written to them, and the buffers of others keep all their bytes; an allocation of up to a page fails only once the pages have run out, and kfree() refuses a held buffer exactly if the client stored the free signature at its byte 8 |
| AllocRuns.WriteSpares | mm/kmalloc.c:82-190 | a write inside one live buffer changes no other |
| E820.BuildMemorySetup | arch/ia64/e820.c:90-116 | the number of available ranges, their pages, and the least address above all of them |
| E820.Sanitize | arch/ia64/e820.c:125-151 | keeps a range exactly when it has a whole page above the kernel, and then as its page-aligned part above the kernel |
| E820.SaneFacts | arch/ia64/e820.c:125-151 | what is left is page-aligned, above the kernel and inside the range |
| E820.SanePages | arch/ia64/e820.c:125-151 | the pages of the sanitised part are exactly those that lie wholly in the range and above the kernel |
| E820.PagesAdded | arch/ia64/memory.c:43-50 | adding the pages of one more range keeps the descriptors those of the whole pages of the ranges so far |
| E820.Sufficient | arch/ia64/memory.c:30-50 | the pages left after sanitising never exceed what the first pass counted |
| E820.RoomForNext | mm/page_alloc.c:192-246 | before each range both tables have room for it |
| E820.OriginsApart | arch/ia64/memory.c:43-50 | disjoint memory ranges give disjoint reverse-map ranges |
| E820.FillRange | arch/ia64/memory.c:43-50 | one range of the second pass fits into the tables and adds the descriptors of exactly its whole pages above the kernel |
| E820.ArchMemoryInit | arch/ia64/memory.c:12-51 | for every memory map below the supported end, a page has a descriptor if and only if it lies wholly in an available range above the kernel; all pages are free, the tables never overflow, and disjoint ranges give one descriptor for each page and an invertible reverse map |
| Spinlock.NextInv | lib/spinlock.c:91-150 | every step that releases in a safe order keeps interrupts off wherever a lock is held |
| Spinlock.NextCore | lib/spinlock.c:91-150 | every step of every CPU, interrupts and unlocks in any order included, keeps one owner per lock and the owner's saved flag |
| Spinlock.RunInv | lib/spinlock.c:91-150 | every interleaving that releases locks in a safe order keeps interrupts off wherever a lock is held |
| Spinlock.RunCore | lib/spinlock.c:91-150 | over every interleaving, with unlocks in any order, a lock has at most one owner and keeps the owner's flag |
| Spinlock.InitialInv | lib/spinlock.c:71-74 | both hold with all locks free |
| Spinlock.MutualExclusion | lib/spinlock.c:91-135 | at most one code path of all CPUs, running or interrupted, has a lock, in whatever order locks are released |
| Spinlock.HolderQuiet | lib/spinlock.c:98-113 | over safe runs the holder of a lock runs, with interrupts off |
| Spinlock.AcquireStep | lib/spinlock.c:98-113 | the test-and-set that finds the lock free makes one owner |
| Spinlock.StoreStep | lib/spinlock.c:107-113 | storing the flag once the lock is held keeps the flag of every holder |
| Spinlock.ReleaseStep | lib/spinlock.c:140-150 | clearing the lock after the flag was read keeps the flag of every holder, whoever takes the lock next |
| Spinlock.UnlockReads | lib/spinlock.c:144-146 | the flag read is the one that this code path saved, in whatever order locks are released |
| Spinlock.UnlockRestores | lib/spinlock.c:140-150 | the end of an unlock turns interrupts on if they were on before the lock was taken; over safe runs it restores that flag exactly |
| Spinlock.TrylockRestores | lib/spinlock.c:122-135 | a failed trylock leaves the interrupt flag as it was |
| Spinlock.LastInFirstOut | lib/spinlock.c:140-150 | last-in-first-out release is always safe |
| Spinlock.SafeOrderExactly | arch/ia64/idt.c:81-97 | the three steps of an unlock lead to a state with interrupts off for the holder of the remaining locks if and only if the order was safe: the outermost lock goes last, or was taken with interrupts off |
| Spinlock.UnlockRuns | lib/spinlock.c:140-150 | the three steps of an unlock are a run, and what they lead to |
| Spinlock.OutermostFirst | lib/spinlock.c:140-150 | a run from the initial state that takes two locks and releases the outer one first: the inner one is held with interrupts on |
| SpinlockCalls.LockReturns | lib/spinlock.c:91-113 | over every run, a code path that called spin_lock() and is out of the call holds that lock besides what it held, with the flag it saved, runs with interrupts off, and nobody else has the lock |
| SpinlockCalls.LockingNext | lib/spinlock.c:91-113 | inside spin_lock() interrupts are off, except while the code path spins: then they are as before the call |
| SpinlockCalls.LockProgress | lib/spinlock.c:98-113 | wherever spin_lock() is, once its code path runs and the lock is free, it is out of the call within five steps |
| SpinlockCalls.TrylockReturns | lib/spinlock.c:122-135 | over every run, spin_trylock() is out of its call with exactly the second step of its CPU |
| SpinlockCalls.TrylockAnswers | lib/spinlock.c:122-135 | whatever other CPUs do in between, it comes out with the lock and interrupts off exactly if the lock was free at its test, and otherwise without it and with the interrupt flag as before |
| SpinlockCalls.UnlockReturns | lib/spinlock.c:140-150 | whatever other CPUs do in between, the first step of spin_unlock() frees the lock, and the second returns without it and with interrupts on if they were on before it was taken |
| Unrolled.PutAt | lib/unrolled_list.c:72-81 | changing a cell changes the binding of its key and no other |
| Unrolled.GrowAt | lib/unrolled_list.c:161-185 | an empty node adds no binding |
| Unrolled.BelowUsed | lib/unrolled_list.c:161-185 | all keys below the first free cell are in use |
| Unrolled.FreesUpdate | lib/unrolled_list.c:72-81 | storing or removing a value changes the number of empty cells by one |
| Unrolled.FreesZero | lib/unrolled_list.c:61-70 | no empty cell is left exactly when all are in use |
| Unrolled.Inserted | lib/unrolled_list.c:161-185 | storing in the first free cell binds the smallest unused key and changes no other binding |
| Unrolled.UnrolledList.GetNode | lib/unrolled_list.c:98-117 | the node of a key, and null exactly when the key is out of range |
| Unrolled.UnrolledList.Lookup | lib/unrolled_list.c:193-203 | agrees with the map for every key, out-of-range ones included |
| Unrolled.UnrolledList.FindFree | lib/unrolled_list.c:61-70 | the first empty cell of a node with one; its panic is unreachable |
| Unrolled.UnrolledList.SetCell | lib/unrolled_list.c:72-81 | one cell changes and nrfree stays the number of empty cells |
| Unrolled.UnrolledList.Grow | lib/unrolled_list.c:180-184 | a fresh empty node at the end of the linked list |
| Unrolled.UnrolledList.FindSlot | lib/unrolled_list.c:166-182 | the first free cell of the whole list, in a new node if all are in use |
| Unrolled.UnrolledList.Insert | lib/unrolled_list.c:161-185 | returns the smallest unused key, binds it, and changes no other binding |
| Unrolled.UnrolledList.RemoveKey | lib/unrolled_list.c:208-220 | panics exactly on a key without a value; otherwise that binding alone goes |
| Unrolled.InsertAndRemove | lib/unrolled_list.c:161-220 | removing the inserted key restores the map |
| Unrolled.UnrolledList.constructor | lib/unrolled_list.c:128-133 | an empty map |
| ListRing.Rotate | include/list.h:57-60 | a ring may be read from any of its nodes |
| ListRing.ListNode.constructor | include/list.h:80-84 | a ring of its own |
| ListRing.ListEmpty | include/list.h:89-98 | true exactly for a ring of one node; its assertions hold |
| ListRing.ListAdd | include/list.h:103-110 | the new node is right behind the given one, the order of the others is kept |
| ListRing.ListAddTail | include/list.h:115-122 | the new node is right before the given one, the order of the others is kept |
| ListRing.ListDel | include/list.h:174-192 | the others stay a ring in the same order, the node is a ring of its own; its assertions hold |
| ListRing.ListForEach | include/list.h:152-155 | the loop visits every node behind the head once, in order, and ends |
| ListRing.Requeue | include/list.h:115-192 | taking out the first node and appending it rotates the queue |

## Left out

- Creating directories with `file_new()`: only regular files. The two entries of a new directory, and the error path
  that frees its inode when they find no block, although the parent already names it, are not modelled.
- Ext2SmallSlot.NewEntryExact: only for directories without duplicate names; a volume without them stays so over every
  run (Ext2Runs.Run). Where names occur twice, SmallSlotExact says what suffices and, inside a record, only what is
  necessary.
- Ext2Ops.FileNew: regular files, in directories whose last record lets a name be added; NewEntryExact says what happens
  to the others.
- Ext2Core.Ext2.FileRead: bytes of holes are whatever block 0 or a fresh block holds, as in the source, and none is
  claimed; offset + len does not wrap at 64 bits, and no offset beyond the twelve direct blocks inside a larger file is
  read, where an assertion of the source fails.
- Ext2Core.Ext2.InodeAlloc: the fresh image has kind, size, links and blocks; permission bits and time stamps have no
  field in the model.
- Ext2Core.Ext2.FileWrite: no wrap of offset + len at 64 bits; the UINT32_MAX limit is above the supported area for
  every block size.
- Ext2Ops.HardLink: links_count is unbounded, the 16-bit wrap of the on-disk field is not modelled.
- Ext2Ops.FileDelete: only where the last link is that of a regular, non-reserved file, as `file_truncate()` asserts.
- Ext2Runs.Run: an operation whose safety condition fails is skipped, since the code may damage the directory then;
  NewEntryExact and AreaEdge say what such an operation does.
- Ext2 locks, time stamps, permission bits and `ext2_init()` checks: no modelled operation reads what they write.
- Directories with indirect blocks: `file_read()` and `file_write()` do not support them.
- Scheduler statistics other than runtime_overall and prio_map: rqwait_overall has no exact law, because the entry time
  is reset when just-queued threads are moved.
- The assembly context switch, sleeping threads and `rq_return_proc()`: unreachable in this kernel, as SchedTick shows.
- Run queues as pointer rings: SchedCpu keeps sequences; ListRing proves the ring operations against sequences.
- VmMap.PageTables.MapRange: ranges are not empty and addresses are whole pages; access bits, PHYS2MACH and pinning are
  left out.
- `copy_pml1_range()` to `copy_address_space()`: their loops follow no consistent source and destination.
- Kmalloc.KernelHeap.Kmalloc: memory has 8-byte cells, and pages come from a pool, which KernelMemory.Kmalloc fills from
  the page allocator.
- Bucket and zone locks: one CPU at a time; Spinlock proves the locks themselves.
- PageAlloc.PageAllocator.GetFromZone: no reserved pages, so the loop that skips them ends at once;
  `reserve_physical_range()` leaves the counters inexact.
- The union of `next` and `bucket_idx` in `struct page`: the heap keeps its own record of page owners.
- E820.BuildMemorySetup: the sum of lengths does not wrap at 64 bits; validation of the boot structure is left out.
- Spinlock.MutualExclusion: safety; that a lock becomes free and fairness are not claimed (LockProgress says what
  happens once it is free), and saving and disabling interrupts is one step.
- Unrolled.UnrolledList.Insert: keys do not wrap at 32 bits; a node's array is a sequence, and `unrolled_free()` is left
  out.
- Drivers, boot code, printing, string routines, the binder and user programs.
