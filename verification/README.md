# zarufs in Dafny

zarufs is a small writable ext2 driver for Linux. This project models the parts of it that decide
where things are on the disk, and proves that they keep the volume in order.

Each part comes twice: as classes and methods with the source's loops, tests and in-place updates, and
as functions on values that say what those methods do. The methods are proved equal to the functions,
and the laws are lemmas about the functions.

- **Logical to physical blocks.** `BlockPath` is the index path arithmetic, `FileTree` the pointer trees of
  all files, `Branch` and `FileMap` the walk, the run of contiguous blocks, the allocation of a branch and its
  splicing, `BranchPlan` what an allocation will do, told from the bitmaps, `LeafPlaces` where its blocks lie.
  `FileMapLaws`, `FileMapCreate` and `FileMapRuns` show that no block is shared while there is room and the
  blocks that become last pointer arrays read as zeros; `DeepSharing` and `StaleBlock`, and `SharedBlock` and
  `ExtraBlocks`, say exactly when one is without the second and without the first.
- **Block bitmaps.** `BlockAllocator`, `BlockAllocatorLaws` and `BlockRefusals` are one call, `FreeCounts` the
  counts over runs of calls, `Interleaving` any number of threads on the same bitmaps.
- **Directories.** `DirectoryLog` is the log of records that tile each block and the table of names it stands
  for; `DirectoryInsert`, `DirectoryDelete`, `DirectoryLaws`, `DirectoryScan`, `DirectoryRead` and
  `DirectoryResume` are the operations on it, `DirectoryRuns` whole runs of them; `Directory` is the object
  whose headers are overwritten, `DirectoryCorrupt` what the scans do at a corrupt header. `DirectoryGrowth`
  and `BackedRuns` join them to the block layer. A record pointer is the byte offset of a record.
- **Namespace.** `NamespaceModel` has link counts and tables of names, `NamespaceEffects` what each operation
  does to entries and counts, `NamespaceLaws` and `NamespaceRuns` what the operations keep, `Namespace` the
  operations on directory objects, with record pointers held across changes.
- **Inodes.** `InodeSearch`, `InodeAllocator` and `InodeAllocatorLaws` are the inode bitmaps and the choice of
  a group, `InodeChoice` the group, bit and counts by number, `InodeRaces` any number of threads on the same
  bitmaps; `VolumeRuns` joins allocation and namespace; `InodeSlots`, `InodeCodec` and `InodeStore` are the
  place of an inode on the disk, its format, and reading and writing it.
- `Bits`, `DirectoryNames`, `Answers` and `Schedules` hold what several parts use.

Block size, page size, group sizes, the number of groups and the number of pointers in a block are
symbolic. C integer widths are written out where a value can leave them.

## Where the code does not do what it is for

The model follows the code. In these places a natural promise is false of it; the project then has the
exact condition under which the promise holds, or an example that breaks it, or both.

- A block allocation whose group is full from the goal on does not go on to another group. Because an
  unsigned number is compared with 0 it looks at the block before the group instead: it answers "no space"
  where that is beside the metadata of the group, as it is when a bitmap is the first block of the group, and
  else reports success with a block it has not taken (`FullExact`, `SuccessExact`, `PhantomExample`); a file
  then shares that block if it is in a file (`SharesExact`, `SharedExample`).
- A call that finds its block outside the volume leaves `err` as it was, so that it too can report success,
  with block 0 (`SuccessExact`, `SilentExample`); with `count` above 1 the splice then stores 1, 2, 3 and so
  on as block numbers (`ClaimsExact`, `ClaimedRow`, `ExtraExample`).
- A block refused as a system block stays marked (`RunKeepsCounts`), and so are blocks that are none, because
  the range test is two blocks wider than the range (`OverreachExact`, `OverreachExample`).
- The loop that allocates a branch ends before the data block as soon as a pointer array is missing
  (`AllocBranch`), so a later lookup finds the new block only when just the leaf was missing
  (`CreateSound`); and it never clears the last array, whose blocks then show what was in it
  (`DeepLookups`, `DeepExact`). So a block can be shared although there is room (`DeepSharesExact`,
  `StaleExample`).
- The limits of a file are computed with 32-bit products (`LimitExact`, `SizeLimitExact`); they are right for
  blocks of up to 4096 bytes (`SmallBlocks`) and wrong for blocks of 8192 (`LimitsExample`).
- The scan for a place for a name stops at the first record with room, so a name further on is not seen
  (`RefusalExact`, `TwiceExample`).
- The emptiness test stands still at a dead record (`StuckExact`, `StuckExample`), and deleting an entry that
  starts a block leaves one (`AliveExact`, `HeadSticks`).
- Enumeration uses the first page's offset again in every later page (`ResumeExact`,
  `ResumeAcrossPagesFails`).
- A mkdir that fails after its inode has been allocated leaves the parent's count raised (`MkdirExact`,
  `LateMkdirMiscounts`).
- A rename onto a directory that is not empty reports success and does nothing (`RenameDirExact`,
  `RenameIdleExample`).
- After a full inode bitmap the search always goes to group 0 (`ScanExact`, `ScanExample`).
- Below a top directory the search for the best group looks at one group only (`BestTop`,
  `BestTopExample`).
- Below an ordinary directory no group passes as uncrowded while the average of free blocks is below a quarter
  of a group, because the difference is unsigned (`NearNever`).
- The high half of an owner is not shifted back when it is read (`OwnerExact`), and a group number too large
  for 16 bits is replaced by the number that stands for users (`DeviceExample`).
- The inode and directory counters start from the free-block total (`InodeTable.constructor`).

## Model

| member | source | states |
|---|---|---|
| BlockPath.PathRoundTrip | src/zarufs_inode.c:383-444 | the path of every addressable block is a valid index path that leads back to the block, and exactly the blocks below 12 + n + n² + n³ have one |
| BlockPath.BlockRoundTrip | src/zarufs_inode.c:383-444 | every valid index path is the path of the addressable block it leads to; with the row above, block numbers and paths correspond one to one |
| BlockPath.PathInjective | src/zarufs_inode.c:383-444 | two addressable blocks with one path are one block |
| BlockPath.PathOrder | src/zarufs_inode.c:383-444 | a block is before another exactly when its path is: at the first index where they differ it is smaller |
| BlockPath.PathNumbers | src/zarufs_inode.c:383-444 | blocks 0 to 11 are direct, and the arrays behind slots 12, 13 and 14 hold the next n, n² and n³ blocks in order |
| BlockPath.BoundaryReach | src/zarufs_inode.c:445-448 | up to the reported boundary every further block has the same path with only the last index raised |
| BlockPath.BoundaryEnd | src/zarufs_inode.c:445-448 | one block past the boundary is out of reach, lies in another pointer array, or is no direct block any more: the boundary is exact |
| BlockPath.BoundaryPast | src/zarufs_inode.c:438-448 | for a block out of reach the boundary is negative: minus one, minus the place of the block in an array counted from block 0 |
| BlockPath.SameHolder | src/zarufs_inode.c:541-560 | within one pointer array, blocks differ as their last indices do |
| BlockPath.BlockToPath | src/zarufs_inode.c:370-450 | for every block number the offsets written are the index path, the depth is its length and 0 out of reach, and the boundary is the exact one; quotients, masks and 32-bit products as in the source |
| BlockPath.LimitExact | src/zarufs_inode.c:396-425 | the limit of addressable blocks, computed with unsigned 32-bit products, is the size of the tree if and only if the cube of the pointers in a block is below 2^32 |
| BlockPath.SizeLimitExact | src/zarufs_super.c:36-50 | the block count of the file size limit, computed in signed 32 bits, is the number of addressable blocks if and only if that is below 2^31; the limit in bytes then is theirs or the cap |
| BlockPath.SmallBlocks | src/zarufs_inode.c:396-425 | both limits are right for up to 1024 pointers in a block, which is blocks of up to 4096 bytes |
| BlockPath.LimitsExample | src/zarufs_inode.c:396-425 | with 2048 pointers in a block both limits lose the third level |
| Bits.MaskIsRemainder | src/zarufs_inode.c:414-435 | masking with 2^k - 1 is the remainder modulo 2^k, for numbers of any size |
| BlockAllocator.Allocator.constructor | src/zarufs_super.c:314-321 | after a mount the global counter is the sum of the group counts |
| BlockAllocator.Allocator.TestAndSet | src/zarufs_block.c:382-384 | one step sets the bit and tells whether it was set |
| BlockAllocator.Allocator.TryToAllocate | src/zarufs_block.c:366-401 | takes the least clear bit at or after the goal; without one it fails and the bitmap is unchanged |
| BlockAllocator.Allocator.AdjustGroupBlocks | src/zarufs_block.c:403-422 | a group count changes by the given amount in 16 bits |
| BlockAllocator.Allocator.NewBlocks | src/zarufs_block.c:116-243 | the bitmaps, counts and answers after a call, for every goal, gate, unreadable bitmap and rejection, are those of the specification |
| BlockAllocator.Allocator.CountFreeBlocks | src/zarufs_block.c:100-114 | the sum of the group counts |
| BlockAllocator.FirstZero | src/zarufs_block.c:380-400 | the result is a clear bit with only set bits before it from the goal on, or there is none |
| BlockAllocatorLaws.BlockPosition | src/zarufs_block.c:158-173 | every block of the volume has a group and a bit in the bitmaps, and their number is the block |
| BlockAllocatorLaws.PositionBlock | include/zarufs.h:354-361 | every place in the bitmaps that stands for a block is the place of that one block |
| BlockAllocatorLaws.NextConsistent | src/zarufs_block.c:116-243 | every call, whatever its outcome, leaves the state consistent |
| BlockAllocatorLaws.TakenIsFresh | src/zarufs_block.c:170-231 | with a clear bit at or after the goal a successful call hands out a block that was free and now is in use, that is neither a bitmap nor in the inode table of its group, and it changes no other bit |
| BlockAllocatorLaws.PhantomBlock | src/zarufs_block.c:184-214 | without such a bit a call that reports success has taken nothing: it names the block before the group and changes no bit and no count |
| BlockAllocatorLaws.SuccessExact | src/zarufs_block.c:170-231 | a call that reports success, whatever `err` held before it, has taken the block it answers if and only if the group of the goal has a clear bit at or after the goal |
| BlockAllocatorLaws.FirstFreeAfter | src/zarufs_block.c:152-195 | the block taken is the first free one after the goal, in the goal's group |
| BlockAllocatorLaws.PhantomExample | src/zarufs_block.c:184-195 | a volume of two groups on which a successful call names a block already in use |
| BlockAllocatorLaws.OutOfVolumeIsFull | src/zarufs_block.c:207-210 | where the bits past the end of the volume are set, only a search that finds nothing ends outside the volume, and it changes no bit |
| BlockAllocatorLaws.SilentExample | src/zarufs_block.c:207-210 | two full groups on which a call with `err` 0 before it reports success with block 0, which is none of the volume, and changes nothing |
| BlockRefusals.RefusedExact | src/zarufs_block.c:195-204 | a clear bit that the search has found is refused as the system's if and only if its block is a bitmap or inode table block of the group or lies in the margin of the range test; the answer is no space, the bit stays set, and no count changes |
| BlockRefusals.OverreachExact | src/zarufs_block.c:196-204 | so a block that is none of the group's system is refused if and only if it lies at most two blocks before a bitmap or is one of the two behind the inode table |
| BlockRefusals.OverreachExample | src/zarufs_block.c:196-204 | one group of eight blocks in which block 3 is free and none of the system, yet is refused and stays marked |
| BlockRefusals.FullExact | src/zarufs_block.c:170-210 | a call that comes to a group full from the goal on answers by the block before the group: no space where that or the next is a bitmap or it lies in the inode table or just behind, outside the volume where there is none, else success; it changes nothing |
| BranchPlan.GrantExact | src/zarufs_block.c:133-210 | a call takes a block if and only if the gate, the count and the bitmap let it through, a clear bit is left from the goal on, and its block is no system block and not in the margin; it is the first clear one |
| BranchPlan.OutcomeExact | src/zarufs_block.c:133-210 | which of its exits a call takes, by guards on the bitmaps and counts before it |
| LeafPlaces.PlaceExact | src/zarufs_block.c:152-173 | a goal outside the volume counts as its first block, and any other is the group and bit of its own block |
| LeafPlaces.GrantPlace | src/zarufs_block.c:152-195 | a call that takes a block takes the first free one at or after its goal, in the goal's group |
| LeafPlaces.NextWhole | src/zarufs_block.c:170-231 | a call that takes a block sets its bit and lowers the group's count and the volume's by one; a refused one sets the bit and lowers nothing; any other changes nothing |
| FreeCounts.StepKeepsCounts | src/zarufs_block.c:170-242 | one call moves the global counter with the sum of the group counts, and raises a group's excess over its clear bits only when it rejects a block of the group |
| FreeCounts.RunKeepsCounts | src/zarufs_block.c:170-242 | over every run of calls, failures included, the counter moves with the sum of the counts and a group's excess grows by the number of its rejected blocks |
| FreeCounts.NoSpaceExact | src/zarufs_block.c:170-190 | after any run from exact counts, "no space" by count is answered if and only if the group is full and no block of it was rejected |
| Interleaving.StepKeepsAccount | src/zarufs_block.c:380-396 | a turn of any thread keeps the account: a bit is set if and only if it was set at the start or exactly one thread has taken it |
| Interleaving.RunKeepsAccount | src/zarufs_block.c:380-396 | so does every schedule of any number of threads |
| Interleaving.NoBlockTakenTwice | src/zarufs_block.c:366-401 | under every schedule no two threads end with one block number, and every block handed out was free at the start |
| Interleaving.EachThreadFinishes | src/zarufs_block.c:380-390 | a thread finishes within as many of its own turns as bits are left before it, whatever the others do |
| Interleaving.RunAlone | src/zarufs_block.c:366-401 | a thread that runs alone ends with the least clear bit at or after its goal, or fails with the bitmaps unchanged if and only if there is none |
| FileTree.PathLevels | src/zarufs_inode.c:474-494 | along a walk the slots lose one level of pointer arrays a step |
| FileTree.SlotUnique | src/zarufs_inode.c:474-494 | when every block in a file has one parent, a slot is at the end of one path of one file only |
| FileTree.NoSharing | src/zarufs_inode.c:474-494 | then no disk block is mapped by two logical blocks, and a mapped block is no pointer array |
| FileTree.LookupStable | src/zarufs_inode.c:474-494 | a walk that succeeds gives the same block after pointers have only been added |
| FileTree.LookupSteps | src/zarufs_inode.c:474-494 | a walk written out for zero to three arrays: each index picks the next number, a 0 ends it |
| Branch.Near | src/zarufs_inode.c:698-703 | the result is the nearest mapped entry before the slot, or there is none |
| Branch.HoleAt | src/zarufs_inode.c:474-494 | the prefix of the path up to the first hole |
| Branch.HoleStays | src/zarufs_inode.c:735-787 | growing a branch leaves the hole it is for where it is |
| BranchPlan.BranchExact | src/zarufs_inode.c:718-787 | a branch finds a clear bit in every round, and is made, if and only if the guards of its rounds say so on the bitmaps before the call; its blocks are the first clear ones from the goal on, in that order |
| BranchPlan.MakesExact | src/zarufs_inode.c:589-617 | so room, success, the blocks taken and the block that becomes the last array are told before the call |
| BranchPlan.LeafExact | src/zarufs_inode.c:735-738 | the creation of a leaf reports success if and only if its guards let it take a block, or the group is full from the goal on and it names a block nobody takes; every other answer is named |
| LeafPlaces.CountExact | src/zarufs_inode.c:740-757 | a creation that makes its branch reports one block for each round, a leaf creation in a full group none, or the count its caller had |
| LeafPlaces.BuildNum | src/zarufs_inode.c:745-757 | every round after the first counts one block more, and one that fails ends in no memory |
| LeafPlaces.RoundFails | src/zarufs_inode.c:745-751 | a later round that fails gives nothing back |
| FileMap.FileBlocks.GetBranch | src/zarufs_inode.c:460-503 | the chain is the walk along the path: complete, or ended by its first hole |
| FileMap.FileBlocks.VerifyIndirectChain | src/zarufs_inode.c:831-837 | says whether every key of the chain still stands in its slot |
| FileMap.FileBlocks.FindNear | src/zarufs_inode.c:682-716 | the goal is the nearest mapped block of the array, else the array's own block, else the caller's place in the inode's group, in 32 bits; LeafPlaces says the place by number |
| LeafPlaces.LeafTakes | src/zarufs_inode.c:682-716 | a leaf creation that takes a block takes the first free one, in the group, from the nearest block mapped before the hole; where none is, from the array's own block; and in an inode from the place `pid % 16` sixteenths into the inode's group, taken in 32 bits, or from the volume's first block where that place is outside |
| FileMap.StaleIsWalk | src/zarufs_inode.c:572-587 | a chain walked before the mutex was taken, all of whose keys still stand, is the walk of now |
| FileMap.WalkDecides | src/zarufs_inode.c:534-535 | a walk tells whether the path is mapped, to which block, and where its first hole is |
| FileMap.Sibling | src/zarufs_inode.c:541-560 | within the boundary the next logical block is the next slot of the same array, which exists and in an inode is a direct one |
| FileMap.FileBlocks.CountRun | src/zarufs_inode.c:538-559 | count blocks are mapped one after another, never more than asked for, and the run goes on as far as the limit and the array allow |
| FileMap.FileBlocks.AllocBranch | src/zarufs_inode.c:718-803 | the blocks taken, arrays written and variables left are those of the specified rounds; the loop ends one round short as soon as an array is missing |
| FileMap.FileBlocks.FillHole | src/zarufs_inode.c:589-617 | a branch is grown for the hole and spliced in, or the error is returned |
| FileMap.FileBlocks.SpliceBranch | src/zarufs_inode.c:805-829 | the first block goes into the hole; where no array was missing and several blocks are claimed the numbers after it follow, from the hole itself on, as far as the array goes |
| Branch.ClaimsExact | src/zarufs_inode.c:735-740 | several blocks are claimed if and only if the block found lies outside the volume, `err` was 0 and `count` above 1 before the call |
| ExtraBlocks.ClaimedRow | src/zarufs_inode.c:816-820 | then the creation of a leaf reports success, takes nothing, stores 1, 2, 3 and so on in `count` slots from the hole on, and maps the block asked for to block 1 |
| ExtraBlocks.ExtraExample | src/zarufs_inode.c:816-820 | a sound full volume with one empty file, whose blocks 0 to 2 become the superblock and two bitmaps |
| FileMap.FileBlocks.CreateLocked | src/zarufs_inode.c:570-616 | under the mutex, with a chain that may be out of date: a block mapped meanwhile is returned and nothing changes; a hole is filled |
| FileMap.FileBlocks.GetBlocks | src/zarufs_inode.c:505-626 | for every block number, mapped or not, with and without creation: the error, the run found, or the state after filling the hole |
| FileMapLaws.NoFilesSound | src/zarufs_block.c:323-364 | a volume whose files hold no blocks yet is sound once its metadata blocks are marked: where runs start |
| FileMapLaws.LeafLookup | src/zarufs_inode.c:474-494 | what the block under a leaf slot holds does not matter to any lookup |
| FileMapLaws.Attach | src/zarufs_inode.c:805-817 | hanging a fresh block, empty if it becomes an array, into a hole keeps every block in a file with one parent and the right level |
| FileMapLaws.AttachSound | src/zarufs_inode.c:805-817 | and keeps the volume sound; at most the lookup that ends in that hole changes |
| FileMapLaws.ForeignSound | src/zarufs_inode.c:754-764 | writing into a granted block that is in no file yet keeps the volume sound |
| FileMapLaws.SoundCreatable | src/zarufs_inode.c:589-617 | in a sound volume every hole can be filled: each block on the way can be read |
| FileMapCreate.Transfer | src/zarufs_inode.c:474-494 | what blocks outside the files hold decides neither soundness nor any lookup |
| FileMapCreate.CreateSound | src/zarufs_inode.c:589-617 | a creation with room, whatever the free blocks hold, keeps the volume sound if the block that becomes a last array reads as zeros; the lookup of the block asked for becomes the new block if and only if it succeeds and only the leaf was missing; every other lookup of every file stays; what was in use and in no file stays out of every file |
| FileMapCreate.DeepLookups | src/zarufs_inode.c:735-787 | after a creation that had to make a pointer array, the blocks of the last array show what its block held before, and every other lookup of every file stays |
| FileMapCreate.DeepExact | src/zarufs_inode.c:745-787 | after a creation that makes m pointer arrays all lookups stay if and only if the block that becomes the last array, the m-th clear one from the goal on, reads as zeros before the call; it is never cleared |
| DeepSharing.DeepSharesExact | src/zarufs_inode.c:745-787 | after it two logical blocks are mapped to one disk block if and only if that block holds the number of a mapped block, or one number twice, before the call |
| StaleBlock.SmallSound | src/zarufs_block.c:323-364 | a concrete volume of one file with a free block that holds an old number is sound |
| StaleBlock.StaleExample | src/zarufs_inode.c:745-787 | on it a creation of block 12 of the file has room and reports success, and then blocks 0 and 12 are one disk block |
| FileMapCreate.BlankLast | src/zarufs_inode.c:745-787 | on a volume whose free blocks read as zeros it always does |
| FileMapRuns.RunSound | src/zarufs_inode.c:570-617 | every run of creations with room, whose last arrays read as zeros, keeps the volume sound, every mapped block where it was, and what was in use and in no file out of every file |
| FileMapRuns.RunSharesNothing | src/zarufs_inode.c:570-617 | after any such run a block mapped by one logical block of one file is mapped by no other, is marked in the bitmaps, and is no pointer array, bitmap or inode table block, nor any other block that was in use at the start and in no file |
| FileMapRuns.CreateNear | src/zarufs_inode.c:698-703 | a leaf creation takes the first free block after the nearest mapped one before it in the array |
| FileMapRuns.FillAscending | src/zarufs_inode.c:698-703 | filling an array from left to right keeps it strictly ascending |
| FileMapRuns.RunRises | src/zarufs_inode.c:698-703 | a run of creations for the blocks of one array from a slot on, one after another and whichever fail, leaves the array ascending if nothing was mapped from that slot on; so does filling an empty one |
| FileMapRuns.NoRoomShares | src/zarufs_block.c:184-195 | without room, when the block before the full group is in some file, a creation that reports success maps it a second time |
| FileMapRuns.SharesExact | src/zarufs_block.c:184-195 | a leaf creation that reports success maps a block that is in a file already if and only if the goal's group is full from the goal on and the block before the group is in a file |
| SharedBlock.SmallSound | src/zarufs_block.c:323-364 | a concrete volume of one file, with blocks 7 and 15 and 256 pointers in a block, is sound |
| SharedBlock.SharedExample | src/zarufs_inode.c:570-617 | on it a creation of block 2 of the file reports success and maps it to block 7, which block 0 of the file is mapped to |
| DirectoryLog.Names | include/zarufs.h:330-336 | the table of a directory binds exactly the live records' names to their inodes |
| DirectoryLog.RecLen | include/zarufs.h:101-101 | a record length is a multiple of four with room for header and name and less than four bytes to spare |
| DirectoryLog.FindExact | src/zarufs_dir.c:246-298 | a scan of a well-formed directory hits exactly when the name is live, at its one record; the early end of each page loses no entry |
| DirectoryInsert.StopFits | src/zarufs_dir.c:369-432 | the scan for a place always stops: at the first record that has room or the name, else at the end of the directory; it never runs out of pages |
| DirectoryInsert.InsertExact | src/zarufs_dir.c:349-470 | inserting an absent name gives no error of its own, adds exactly the one binding, moves no live record, keeps the tiling, and grows the directory, by one block, if and only if no record has room |
| DirectoryInsert.FailedHeaders | src/zarufs_dir.c:382-433 | a failed preparation changes no header; only when the directory was to grow is one written, an empty record of a whole block just behind the end |
| DirectoryInsert.RefusalExact | src/zarufs_dir.c:402-426 | a live name is refused if and only if no record before its own has room |
| DirectoryInsert.RefusalAnswer | src/zarufs_dir.c:402-426 | a refusal answers that the name exists and changes nothing; where an earlier record has room the answer is that of the preparation of the block |
| DirectoryScan.TwiceExample | src/zarufs_dir.c:402-426 | adding the name of the second block of a directory once more is no error: it goes into the slack of the first, and there are two live records of it |
| DirectoryInsert.PlaceSlack | src/zarufs_dir.c:442-449 | splitting the slack off a live record keeps the tiling and the record |
| DirectoryInsert.RecordFits | src/zarufs_dir.c:395-398 | no record of a well-formed directory is longer than a block |
| DirectoryDelete.WalkExact | src/zarufs_dir.c:539-557 | the walk from the start of the block finds the record that ends where the deleted one starts, or none if it starts the block |
| DirectoryDelete.DeleteExact | src/zarufs_dir.c:526-577 | deleting through the pointer to a live record removes exactly its binding, keeps the tiling and moves no other live record |
| DirectoryDelete.DeleteHeaders | src/zarufs_dir.c:526-577 | every header after a deletion: the record keeps all but its inode number, its bytes go to the record before it in its block, and when it starts the block nothing else changes |
| DirectoryDelete.SetLinkExact | src/zarufs_dir.c:596-623 | relinking changes exactly one inode number |
| DirectoryLaws.RenameToNew | src/zarufs_namei.c:199-244 | within one directory, the pointer taken before the insertion of the new name still points at the old record after it, even when the insertion splits that record, and deleting through it leaves the old table without the old name and with the new one |
| DirectoryLaws.RenameOnto | src/zarufs_namei.c:217-244 | the same when the new name exists and is relinked |
| DirectoryLaws.NoGrowthAfterDelete | src/zarufs_dir.c:369-432 | right after a deletion a name no longer than the deleted one goes in without growth |
| DirectoryLaws.MakeEmptyExact | src/zarufs_dir.c:300-347 | a new directory is one well-formed block that binds exactly "." and ".." |
| DirectoryLaws.MakeEmptyWhole | src/zarufs_dir.c:300-347 | the first block is zeros but for its two records, later blocks stay; a block that cannot be prepared changes nothing and the error is passed on |
| DirectoryLaws.DotDotExact | src/zarufs_dir.c:579-594 | the record behind the first one is that of ".." |
| DirectoryScan.EmptyExact | src/zarufs_dir.c:472-524 | "empty" is answered only when "." and ".." are the only names, "not empty" only when there is another, and without dead records there is an answer |
| DirectoryScan.StuckExact | src/zarufs_dir.c:493-517 | the test never returns if and only if a dead record comes before every other name |
| DirectoryScan.AliveExact | src/zarufs_dir.c:539-566 | a deletion leaves a dead record if and only if the entry starts a block |
| DirectoryScan.HeadSticks | src/zarufs_dir.c:493-517 | where only the dots stand before an entry that starts a block, the test never returns once that entry is deleted |
| DirectoryScan.StuckExample | src/zarufs_dir.c:493-517 | a directory of two blocks, not the root, with the dots in one and one name in the other, that gets stuck when that name is deleted |
| DirectoryScan.OneBlockStaysAlive | src/zarufs_dir.c:545-566 | in a directory of one block every entry but the first has a record before it, and deleting it leaves no dead record |
| DirectoryScan.InsertStaysAlive | src/zarufs_dir.c:434-454 | an insertion leaves no dead record where there was none |
| DirectoryRead.ReadAll | src/zarufs_dir.c:46-121 | a read from position 0 that is never refused gives every live entry exactly once, in record order, and ends at the size |
| DirectoryCorrupt.BreakExact | src/zarufs_dir.c:88-551 | a length of 0 in the first page ends the scans that come to it: a search and an insertion unless the name, or room for it, stands before it, a read after all live entries before it, a deletion behind it in its block; the emptiness test stands still unless another name than the dots comes first; nothing is changed |
| DirectoryCorrupt.SteppingExample | src/zarufs_dir.c:382-433 | records that step over the ends of all pages, of the one past the directory too, make an insertion answer "invalid argument" |
| DirectoryRead.ReadTable | src/zarufs_dir.c:46-121 | its entries are exactly the names and inodes of the table, each name once |
| DirectoryRead.ReadResumes | src/zarufs_dir.c:75-121 | in a directory of one page, what is read with a refusal in between joins to what one read gives, and ends at the same position |
| DirectoryResume.ResumeExact | src/zarufs_dir.c:70-121 | where no header reaches past its block, a read from a record on gives all remaining entries and ends at the size if and only if the record starts a page or lies in the last one |
| DirectoryResume.ResumeRight | src/zarufs_dir.c:70-121 | such a record is enough in every well-formed directory |
| DirectoryRuns.ChangeBoxed | src/zarufs_dir.c:349-623 | adding, deleting and relinking, whatever is deleted, leave no header, live or left over, that reaches past its block |
| DirectoryRuns.RunKeeps | src/zarufs_dir.c:349-623 | over every run of changes the directory stays well formed, no header reaches past its block, and the size never falls |
| DirectoryRuns.RunResumes | src/zarufs_dir.c:70-121 | after every run from a new directory a read from a record on is right if and only if the record starts a page or lies in the last one |
| DirectoryRuns.RunStaysAlive | src/zarufs_dir.c:434-566 | a run that deletes no entry that starts a block leaves no dead record |
| DirectoryRuns.OneBlockAnswers | src/zarufs_dir.c:472-524 | after every run from a new directory that has stayed within one block and does not delete its first entry, the emptiness test answers |
| DirectoryRead.ResumeAcrossPagesFails | src/zarufs_dir.c:70-121 | two pages on which a read that goes on after one entry ends with an I/O error before the last entry |
| Directory.Directory.FindEntry | src/zarufs_dir.c:246-298 | the record of the name, which the table then binds to the inode found, or no record and the name is not in the table |
| Directory.Directory.FindPlace | src/zarufs_dir.c:369-432 | the first place with room, page by page, with the source's bounds |
| Directory.Directory.AddLink | src/zarufs_dir.c:349-470 | the new size, headers and error are the specified ones; an absent name is added to the table and no live record moves |
| Directory.Directory.DeleteEntry | src/zarufs_dir.c:526-577 | the table loses exactly the name under the pointer, and other live records stay |
| Directory.Directory.Relink | src/zarufs_dir.c:596-623 | the table binds the name under the pointer to the other inode, and no other record changes |
| Directory.Directory.InitEmpty | src/zarufs_dir.c:300-347 | the table of a new directory is "." and "..", at bytes 0 and 12 |
| Directory.Directory.Truncate | src/zarufs_namei.c:156-156 | the directory has no names left |
| Directory.Directory.GetDotDot | src/zarufs_dir.c:579-594 | the pointer to the record of ".." |
| Directory.Directory.IsEmpty | src/zarufs_dir.c:472-524 | the verdict agrees with the table |
| Directory.Directory.ReadEntries | src/zarufs_dir.c:46-121 | the entries emitted and the position are those of the specified scan |
| NamespaceLaws.CreateKeeps | src/zarufs_namei.c:271-307 | creating a file keeps the namespace consistent, also when its entry cannot be added |
| NamespaceLaws.MkdirExact | src/zarufs_namei.c:38-79 | a mkdir keeps the namespace consistent if and only if it does not fail after its inode has been allocated |
| NamespaceLaws.LateMkdirMiscounts | src/zarufs_namei.c:73-78 | after such a failure the parent counts one child more than it has |
| NamespaceLaws.UnlinkKeeps | src/zarufs_namei.c:165-185 | removing a file's name keeps the namespace consistent; what goes is said by NamespaceEffects.UnlinkEffect |
| NamespaceLaws.RmdirKeeps | src/zarufs_namei.c:146-163 | removing a directory does; one that is not empty is refused and nothing changes |
| NamespaceLaws.RenameFileKeeps | src/zarufs_namei.c:187-255 | renaming a file does, with and without another file in the way |
| NamespaceLaws.RenameDirKeeps | src/zarufs_namei.c:187-255 | renaming a directory does, within and across parents, onto a free name or an empty directory: counts, ".." and the way to the root |
| NamespaceLaws.MoveDirKeeps | src/zarufs_namei.c:210-244 | moving a directory to another parent that is not below it keeps counts, ".." and a way to the root for every directory |
| NamespaceEffects.CreateEffect | src/zarufs_namei.c:271-307 | a create adds the one entry and a file with one link, or, where the entry cannot be added, a file with none; no other inode, table or entry changes |
| NamespaceEffects.MkdirEffect | src/zarufs_namei.c:38-79 | a mkdir adds the one entry and a directory with two links and its dots, and its parent counts one more; each failure leaves what it leaves and nothing else |
| NamespaceEffects.UnlinkEffect | src/zarufs_namei.c:165-185 | an unlink takes away exactly the one entry, the file counts one less, and no other inode, table or entry changes |
| NamespaceEffects.RmdirEffect | src/zarufs_namei.c:146-163 | a rmdir of an empty directory takes away exactly its entry, leaves it without names and links, and its parent counts one less; any other is refused |
| NamespaceEffects.RenameFileEffect | src/zarufs_namei.c:187-255 | a file rename moves the one entry, what was in the way counts one less, and nothing else changes; where the name cannot be added nothing does |
| NamespaceEffects.RenameDirEffect | src/zarufs_namei.c:187-255 | a directory rename moves the one entry and its ".."; the new parent counts one more on a free name, a directory in the way two less, the old parent one less; or nothing changes |
| NamespaceEffects.StepEffects | src/zarufs_namei.c:38-307 | every operation the VFS lets through has exactly these effects |
| NamespaceRuns.StepExact | src/zarufs_namei.c:38-307 | an operation the VFS lets through keeps the namespace consistent if and only if it is not a late failing mkdir |
| NamespaceRuns.RunKeeps | src/zarufs_namei.c:38-307 | every run of such operations does |
| NamespaceRuns.RunCounts | src/zarufs_namei.c:38-307 | after any run from a bare root: a directory counts 2 and its child directories, a file its entries, ".." names the directory of the one entry and leads to the root |
| NamespaceRuns.RenameFileMoves | src/zarufs_namei.c:210-239 | a file rename takes away the old entry and the one in the way, adds the new one, and changes no other entry |
| NamespaceRuns.RenameDirMoves | src/zarufs_namei.c:210-251 | a directory rename moves its one entry and its ".." |
| NamespaceRuns.RenameDirExact | src/zarufs_namei.c:210-255 | a directory rename reports success whenever its emptiness test answers; the entry and its ".." have moved if and only if the new name was free or named a directory with no names but the dots, else nothing has changed |
| NamespaceRuns.RenameIdleExample | src/zarufs_namei.c:217-229 | a root with three directories on which renaming one onto a non-empty one reports success and does nothing |
| Namespace.Namespace.constructor | src/zarufs_namei.c:38-79 | a volume that holds only its root is valid and consistent |
| Namespace.Namespace.Create | src/zarufs_namei.c:271-307 | with directories as record logs, tables, counts and error are those of the specified step, which keeps them consistent; entry, link count and all that stays are said on the object |
| Namespace.Namespace.Mkdir | src/zarufs_namei.c:38-79 | the same; the new directory's log is furnished before it is linked |
| Namespace.Namespace.Unlink | src/zarufs_namei.c:165-185 | the same: on the object the one entry goes, the file counts one less, and nothing else changes |
| Namespace.Namespace.Rmdir | src/zarufs_namei.c:146-163 | the same, with the verdict of the scan over the records; the log is emptied |
| Namespace.Namespace.Rename | src/zarufs_namei.c:187-255 | the same, through record pointers to the old entry and to ".." that are taken before the new entry is made and used after it |
| Namespace.Namespace.Link | src/zarufs_dir.c:434-470 | one name is added to one directory and every record pointer of every directory stays good |
| Namespace.Namespace.Drop | src/zarufs_dir.c:526-577 | one name is removed and every pointer to another record stays good |
| Namespace.Namespace.Retarget | src/zarufs_dir.c:596-623 | one name is turned to another inode and every pointer to another record stays good |
| InodeSearch.FileOrderComplete | src/zarufs_ialloc.c:225-265 | the search for a file's group fails if and only if no group has both a free inode and a free block, wherever it starts |
| InodeSearch.FirstIn | src/zarufs_ialloc.c:238-265 | the result is the first good candidate, or there is none |
| InodeChoice.FileChoiceExact | src/zarufs_ialloc.c:225-265 | by number: a file goes to its parent's group when that has a free inode and a free block; else to the first such group among those at ((parent + inode) mod n) + 1 + j for 2^j below n; else to the first such group after the parent's; else nowhere |
| InodeSearch.WalkComplete | src/zarufs_ialloc.c:249-260 | the linear walk reaches every group, from any parent group |
| InodeSearch.FallbackComplete | src/zarufs_ialloc.c:354-372 | the last resort fails if and only if no group has a free inode, and prefers one with the average |
| InodeSearch.DirGroupComplete | src/zarufs_ialloc.c:267-373 | whatever the averages and limits are, the search for a directory's group fails if and only if every group has no free inode, and never returns a full one |
| InodeChoice.DirChoiceExact | src/zarufs_ialloc.c:267-373 | by number: below a top directory the group after the random one if its counts suit; below another the first uncrowded group from the parent's on; else the first group from there on with the average of free inodes, or else with any |
| InodeChoice.NearNever | src/zarufs_ialloc.c:333-352 | where the average of free blocks is below a quarter of a group no group passes as uncrowded |
| InodeSearch.BestTopExample | src/zarufs_ialloc.c:311-332 | three groups that fit, where the one chosen has five directories and another none |
| InodeAllocator.InodeTable.constructor | src/zarufs_super.c:324-338 | both global counters start as the sum of the block groups' free counts |
| InodeAllocator.InodeTable.FindGroupOther | src/zarufs_ialloc.c:225-265 | the first good group in the order parent, doubling probes, walk |
| InodeAllocator.InodeTable.FindDirGroup | src/zarufs_ialloc.c:267-373 | the group the averages, limits and fall-backs lead to |
| InodeAllocator.InodeTable.BestTop | src/zarufs_ialloc.c:311-332 | below a top directory the loop looks at one group only, the one after a random group |
| InodeAllocator.InodeTable.LastResort | src/zarufs_ialloc.c:354-370 | two rounds at most, the second for any free inode |
| InodeAllocator.InodeTable.Search | src/zarufs_ialloc.c:62-101 | the first clear bit of the first bitmap, else of the group that follows it by the inverted test, is set |
| InodeAllocator.InodeTable.AllocNewInode | src/zarufs_ialloc.c:21-177 | bitmaps, counts, counters and answer are the specified ones, for every failure on the way |
| InodeAllocatorLaws.ScanExact | src/zarufs_ialloc.c:62-101 | a search finds a clear bit if and only if its first group has one, or there is a second group and group 0 has one |
| InodeAllocatorLaws.ScanExample | src/zarufs_ialloc.c:62-101 | three groups, two of them full, where the search never comes to the third |
| InodeAllocatorLaws.ChooseExact | src/zarufs_ialloc.c:44-58 | no group is chosen if and only if no group will do |
| InodeAllocatorLaws.AllocKeepsCounts | src/zarufs_ialloc.c:103-140 | a group's free count exceeds its clear bits by one more for each refused number and by nothing else; both global counters move with the sums of the group counts |
| InodeAllocatorLaws.SettledKeeps | src/zarufs_ialloc.c:44-140 | free counts that equal the clear bits stay so, whatever fails |
| InodeAllocatorLaws.AllocExact | src/zarufs_ialloc.c:44-140 | with exact counts a directory gets an inode if and only if some group has a free one, any other file if and only if some group has a free inode and a free block; else the answer is "no space" and nothing changes |
| InodeChoice.AllocWhole | src/zarufs_ialloc.c:44-177 | the whole of a request once its group is chosen: which bit is taken, its number, every count and counter, and the answer, for every failure |
| InodeChoice.DirsExact | src/zarufs_ialloc.c:129-140 | a group's directory count rises by one if and only if the request was for a directory and set a bit of the group with an ordinary number; the volume's in exactly those calls; free counts likewise |
| InodeChoice.RunDirs | src/zarufs_ialloc.c:129-140 | over any run a group's directory count grows by the number of such requests |
| InodeAllocatorLaws.AllocFresh | src/zarufs_ialloc.c:85-122 | a number handed out was free, is in use from then on, and lies in the volume; no number becomes free |
| InodeAllocatorLaws.RunDistinct | src/zarufs_ialloc.c:85-122 | over any run no number is handed out twice, and none that was in use |
| InodeAllocatorLaws.RunSettled | src/zarufs_ialloc.c:44-140 | exact counts stay exact over any run |
| InodeRaces.StepKeepsAccount | src/zarufs_ialloc.c:68-98 | a step of any thread that looks for a clear bit or tries to set one keeps the account: a bit is set if and only if it was set at the start or exactly one thread has got it |
| InodeRaces.NoInodeTakenTwice | src/zarufs_ialloc.c:68-115 | under every schedule, lost races included, no two threads end with one inode number, and every number handed out was free at the start |
| InodeRaces.EachThreadFinishes | src/zarufs_ialloc.c:62-101 | a thread ends within a bounded number of its own steps, whatever the others do |
| InodeRaces.LeavesFull | src/zarufs_ialloc.c:62-101 | under every schedule a thread leaves the group it starts in only when every bit of it is set, so one that ends without an inode leaves it full |
| InodeRaces.RunAlone | src/zarufs_ialloc.c:62-101 | a thread that runs alone ends as the sequential search does, with the same bit or with none |
| InodeRaces.MovesOn | src/zarufs_ialloc.c:76-97 | where a thread with rounds left goes on: to group 0 after a full group, to the next bit after a lost race, and after the last bit to the next group, cyclically |
| VolumeRuns.OpAllowed | src/zarufs_namei.c:271-288 | an inode number from the allocator is fresh in the namespace, so the operation is one the namespace laws hold for |
| VolumeRuns.NextKeeps | src/zarufs_namei.c:38-307 | a call on namespace and inode bitmaps together keeps the namespace consistent and every inode of it marked in use |
| VolumeRuns.LeadsKeeps | src/zarufs_namei.c:38-307 | so does every run |
| VolumeRuns.JustRootJoined | src/zarufs_namei.c:38-79 | a bare root whose bit is set is where a run can start |
| VolumeRuns.NewExact | src/zarufs_namei.c:47-79 | with exact counts, mkdir succeeds if and only if some group has a free inode and the directory layer has no error, create if and only if some group has a free inode and a free block and the layer has none; where no group will do the answer is no space and the volume is as before, else it is the layer's |
| VolumeRuns.NewAnswers | src/zarufs_namei.c:47-79 | in every state and for every request: an allocation that fails passes its error on and leaves the namespace as it was; with a number the directory layer answers, and the name gets that number |
| DirectoryGrowth.AddExact | src/zarufs_dir.c:349-470 | an absent name goes into a directory if and only if some record has room, or the block behind the end is mapped, or the guards of the block allocator let it take one, or the group is full and it pretends to; a block taken was free, and where it pretends nobody has taken one |
| DirectoryGrowth.AddKeepsBacked | src/zarufs_dir.c:382-463 | an addition with room for its block, whether the name goes in or not, leaves the volume sound, every block of the directory mapped and every mapped block where it was |
| BackedRuns.RunBacked | src/zarufs_dir.c:349-623 | after every run of changes to a directory and creations in all files, with room, the directory is well formed and each of its blocks is mapped, to a block that is marked, no metadata and mapped by nothing else; what was mapped stays where it was |
| DirectoryGrowth.NewFileExact | src/zarufs_namei.c:271-307 | with one set of free-block counts for both allocators, a new file gets its name if and only if some group has a free inode and counts a free block, and the directory has a record with room, a mapped block behind its end, or a block taken or pretended |
| InodeSlots.SlotOf | src/zarufs_inode.c:164-174 | shift and mask by the block size give quotient and remainder by the inodes of a block |
| InodeSlots.ByteExact | src/zarufs_inode.c:142-175 | an inode is found if and only if the volume has its number and its group a table, at the byte of the table that leaves room for the inodes before it; any other number is invalid or an I/O error |
| InodeSlots.StartExact | src/zarufs_inode.c:156-175 | that is one byte of one block, and the one found |
| InodeSlots.ByteExample | src/zarufs_inode.c:142-175 | a volume of two tables, with the places of inodes 2, 16 and 17 and the refusal of 3 and 33 |
| InodeSlots.SlotInBlock | src/zarufs_inode.c:164-175 | an inode never straddles two blocks |
| InodeSlots.TableExact | src/zarufs_inode.c:156-168 | all inodes of every group lie inside the group's table if and only if the inodes of a block divide those of a group |
| InodeSlots.SlotInTable | src/zarufs_inode.c:156-168 | then the block found is one of the table of the inode's group |
| InodeSlots.SlotsApart | src/zarufs_inode.c:156-175 | the bytes of two inodes do not overlap |
| InodeCodec.FlagsRoundTrip | src/zarufs_inode.c:285-328 | copying the five flags to the disk's word and back keeps them and touches no other bit of either word |
| InodeCodec.FlagsInBits | src/zarufs_inode.c:285-305 | which bit of the disk's word each of the five flags is, and that no other bit changes |
| InodeCodec.FlagsOutBits | src/zarufs_inode.c:307-328 | which bit of the kernel's word each is |
| InodeCodec.ModeBits | src/zarufs_inode.c:249-262 | regular files and devices are told by the top four bits of the mode |
| InodeCodec.OwnerExact | src/zarufs_inode.c:209-220 | an owner comes back if and only if it is below 65536, with either mount option |
| InodeCodec.HalvesExact | src/zarufs_inode.c:874-894 | the two halves written make the owner; with 16-bit owners or a deleted inode the high half is 0, and with 16-bit owners one that does not fit is replaced by the mount's stand-in |
| InodeCodec.SizeExact | src/zarufs_inode.c:245-249 | the two halves of a size make every 64-bit size again; one half does if and only if the size is below 2^32 |
| InodeCodec.RoundTrip | src/zarufs_inode.c:839-923 | a write followed by a read is the identity on all fields kept in full, and on owners, link count, size, times and block count if and only if the value fits; "stale" is answered if and only if there are no links and no mode or a deletion time |
| InodeCodec.WriteExample | src/zarufs_inode.c:839-923 | a regular file of more than 2^32 bytes and an owner above 16 bits, and every field of its disk inode |
| InodeCodec.ReadExample | src/zarufs_inode.c:205-262 | every field that is read back from it |
| InodeCodec.DeviceExample | src/zarufs_inode.c:886-923 | a deleted device written with 16-bit owners: user and group are replaced by the user's stand-in, the block numbers stay |
| InodeStore.SaveThenLoad | src/zarufs_inode.c:130-176 | a written inode reads back as it was encoded, and every other inode of the volume reads as before |
| InodeStore.PlacesExact | src/zarufs_inode.c:130-176 | a write puts the encoded inode at the byte where it starts and nothing anywhere else, a read decodes what is there, and both work if and only if the inode starts anywhere |
| InodeStore.VfsInode.SetDriverFlags | src/zarufs_inode.c:285-305 | the driver's word gets the five flags |
| InodeStore.VfsInode.SetVfsFlags | src/zarufs_inode.c:307-328 | the kernel's word gets the five flags |
| InodeStore.VfsInode.Fill | src/zarufs_inode.c:209-258 | the fields after a read are the decoded ones, or the inode is stale |
| InodeStore.Store.WriteInode | src/zarufs_inode.c:839-939 | the disk inode at the byte where the inode starts is its encoding, and no other changes |
| InodeStore.Store.ReadInode | src/zarufs_inode.c:178-277 | the inode read is the decoding of the disk inode at the byte where it starts, or the error |

## Left out

- The page cache, buffer heads, reference counts, locks other than the bitmap's, dirty marks, syncing,
  module registration and mount I/O: blocks and pages are plain state, and preparing or reading one either
  works or is a parameter that says which error comes back.
- Superblock parsing, feature flags, `zarufs_get_descriptor_location` and the check of a freshly read
  block bitmap: I/O, with no property of their own.
- Read errors inside a walk: every pointer array is taken to be readable. The retry after a concurrent
  truncate, which the driver does not have; a walk done before the truncate mutex was taken is modelled.
- Freeing blocks and inodes, and the inner loop of the branch allocation that its own bound never lets run.
- Stores of the splice past the end of the pointer array, and the conversion of its count to `int`.
- Timestamps, the file type byte of a record, directory flags, `i_version` and synchronous directories.
- The reserved-block gate of the block allocator, the random group, the caller's process number and
  per-CPU counter readings are parameters.
- Failures to allocate memory.
- Overflow of C's `int` in group numbers and in the doubling probe counter: those are unbounded here.
- `zarufs_link`, `zarufs_symlink` and the other operations without effect, and lookup by dentry.
- The two functions that count free inodes and directories are not modelled.
- InodeRaces.NoInodeTakenTwice: covers the bitmaps; counts and the choice of a group are those of one
  thread at a time, and finding a clear bit is one step, as setting it is another.
- Namespace.Namespace.Rmdir: where the emptiness test never returns, the model reports that it is stuck and
  changes nothing; the same holds for Rename.
- DirectoryInsert.InsertExact: takes the absence of the name as given, as the lookup before it provides;
  what happens to a name that is live is RefusalExact.
- DirectoryRead.ReadResumes: covers directories of one page; for more pages ResumeExact says from which
  records a read goes on rightly.
- DirectoryResume.ResumeExact: the log has headers, not bytes: an offset inside a record reads as the header a
  deletion has left there, or as zeros. In the driver a name may cover such a header, and its letters are then
  read as one; a read that lands in a name can therefore end elsewhere. The half that says which reads are
  right, ResumeRight, holds whatever lies inside the records.
- DirectoryRuns.RunResumes: is about that log too; on it no header ever reaches past its block
  (DirectoryRuns.RunKeeps), which a name read as a header may.
- FileMapCreate.CreateSound: assumes that a block that becomes a last array reads as zeros, as DeepExact shows
  it must; leaf creations need no such thing.
- DirectoryGrowth.AddExact: covers growth by a block whose pointer array is there, as it is for every direct
  block; where an array is missing the driver loses the block (FileMapCreate.DeepLookups). BackedRuns.RunBacked
  is about such runs, with room.
- VolumeRuns.NewExact: takes the directory layer's error as given; DirectoryGrowth.NewFileExact says where it
  comes from for a new file, and the first block of a new directory is left as a parameter.
- FileMapRuns.RunSharesNothing: assumes room for every allocation of the run, and last arrays that read as
  zeros; SharesExact and DeepSharesExact show what happens without.
- FileMapRuns.CreateNear: covers leaf creations, as a deeper branch has no mapped neighbour.
- InodeCodec.RoundTrip: leaves out device inodes, whose block numbers are not written.
- InodeStore.SaveThenLoad: assumes group tables that do not overlap and whole blocks of inodes in a group.
- InodeAllocatorLaws.AllocExact: assumes that every bitmap can be read and the inode cache takes the inode;
  what else can happen is in Alloc, and AllocKeepsCounts and AllocFresh hold for it too.
