# Verified models of the prefetch tools

The repository speeds up booting and starting applications: the kernel traces which pages are referenced, tools merge
the traces and find the disk blocks behind them, and two offline programs move those blocks so that they lie next to
each other on an ext2 or ext3 file system. This project models these programs in Dafny and proves what they keep.
`dafny verify dfyconfig.toml` checks all of it.

## What is modelled

**The file system** (`Ext2`, `BlockTree`). A disk of blocks, the pointers of the inodes, and slots: the places that
store a pointer, in an inode or in an indirect block. Both relocators rest on one theorem: pointing one slot to an
unused block that holds a copy changes that pointer and no other, keeps every file, and keeps blocks unshared.

**e2remapblocks**, from its input to the group descriptors.
- `ExtentTree` is the splay tree with its pointers in the heap; `LoadExtents` cuts overlapping lines so that the first
  one wins.
- `FreeRuns` scans the bitmap and chooses the free runs that tile the chunk offsets.
- `Traverse` is the walk with its two tree indices, `RemapBlocks` the decision for each block, `RemapInode` the
  rewriting of one inode, `CopyBlocks` the copying, `Remap` all inodes together. `WalkExamples` holds file systems on
  which the walk goes wrong.
- `GroupCounts` is the bitmap update; `RemapPlan` and `RemapProgram` put everything together.

**e2moveblocks**: `Estimate`, `MoveBlocks` (from searching the area to the last move) and `LayoutOrder`.

**e2block2file**: `BlockToFile` (merging, searching, splitting) and `StoreBlocks` (the walk over all files; what it
prints is right for e2remapblocks).

**The kernel trace**: `TraceBuffer` (every interleaving of the locked sections), `TraceUsers` (when it may be cleared),
`BootTrace` (sessions and boot phases). **prefetch-process-trace** is `TraceMerge`, the cache walk of the older
prefetch module is `WalkCache`. `Intervals`, `Sorting` and `Arithmetic` are shared.

Programs that change state are methods over classes with the source's fields, proved against functions of the old
state. Threads that act between two locked sections are parameters: a list of what they do in the meantime.

## Where the code departs from its intent

The models follow the code. Each departure has its exact condition, and an example where it is not plain that the
condition can fail.

- The overlap test of the tree insertion (`<` for `<=`): the program exits exactly for a line that starts below every
  loaded block and reaches the lowest one (`LoadExtents.LoadsIff`).
- The missing `curpos` in the copy: an extent is copied right on every disk if and only if it fits into the buffer
  (`CopyBlocks.CopiesRightIff`); `CopyBlocks.CopiedAt` says what happens otherwise.
- The length threshold of the free runs: the result is sound if and only if the runs of at least half the pivot length
  can hold the data (`FreeRuns.FindFreeBlocks`); `FreeRuns.ThresholdCanFail` is a bitmap for which they cannot.
- The index that is not reset for a second double-indirect block: the computed code is the documented one if and only if
  no index is left over (`Traverse.CodeRight`), and the codes ascend if and only if no left-over index is larger than
  the index of the single-indirect block visited next (`Traverse.CodesAscend`). `WalkExamples.StaleDisorders` is a file
  for which they do not.
- The walk advances by at most one extent: where the codes of the walk ascend, it changes every listed block if and only
  if no extent of the inode ends behind the start of the next one in the order of the walk (`RemapBlocks.SeparatedIff`);
  and it does so for all such lists if and only if the codes ascend (`RemapInode.ChangesEveryIff`).
  `WalkExamples.ListedIsSkipped` is a file and a list for which an indirect block is skipped. In an ascending walk a
  list that e2block2file prints is never like that (`StoreBlocks.PrintedIsWalkable`).
- The group loop assumes that the first data block is 0: with 1 it hangs if and only if the range contains a multiple of
  the group size (`GroupCounts.Groups.Adjust`).
- A walk over the pages that fails leaves its place among the tracers taken for ever, at the start of the first phase or
  at the stop, unless it fails for an overflow (`BootTrace.PlacesBalance`).
- The estimate is one too high exactly when the range runs from the double- into the triple-indirect zone and starts
  early in its indirect block (`Estimate.EstimateBlocksForRange`).
- A trace buffer never fills its last place (`TraceBuffer.FirstRecordsKept`).
- Only the first tracer gets a start marker; any other client keeps what its marker was (`TraceUsers.OwnMarker`), and
  what it fetches from there is what has been stored since its start if and only if the marker happened to stand there
  (`TraceUsers.StartMarkerFetches`). `TraceUsers.SecondTracerLoses` is a run in which a second client can fetch nothing,
  and `BootTrace.PhasesSaved` says what the first boot phase saves then.
- A start marker is not protected until its client has been counted as a user: what follows it can be fetched if and only
  if no last user releases the trace before that (again `StartMarkerFetches`); `TraceUsers.StartMarkerCanBeLost` is a run
  in which one does.
- The cache walk emits an empty range exactly when the first cached page is referenced and is not page 0
  (`WalkCache.Session.WalkFileCache`).

## Model

| member | source | states |
|---|---|---|
| `ExtentTree.SearchInOrder` | ext3remapper/e2remapblocks.c:74-120 | a tree is a search tree of disjoint extents exactly when its in-order sequence is ordered and disjoint |
| `ExtentTree.RotateShape` | ext3remapper/e2remapblocks.c:87-94 | a rotation keeps the in-order sequence of the whole tree, its extents and that none occurs twice |
| `ExtentTree.AssembleShape` | ext3remapper/e2remapblocks.c:115-118 | hanging the two side trees below the node that ended the descent gives a tree of exactly the same extents, none twice |
| `ExtentTree.SearchDisjoint` | ext3remapper/e2remapblocks.c:122-145 | any two extents of a search tree are disjoint |
| `ExtentTree.InsertTouches` | ext3remapper/e2remapblocks.c:129-142 | in a tree splayed twice at its start, a new extent fits strictly beside the root unless it ends where the lowest extent begins |
| `ExtentTree.SplayTree.Descend` | ext3remapper/e2remapblocks.c:83-114 | the top-down descent terminates with three parts that make up the old tree, at the extent the descent ends at |
| `ExtentTree.SplayTree.Splay` | ext3remapper/e2remapblocks.c:74-120 | splaying keeps the sequence of extents; the new root contains the key if any extent does, else it is the predecessor or successor |
| `ExtentTree.SplayTree.Insert` | ext3remapper/e2remapblocks.c:122-145 | insertion keeps an ordered disjoint tree and adds exactly the extent; for any tree it fails exactly if the new extent ends where the extent at the end of the descent begins |
| `LoadExtents.FirstLineWins` | ext3remapper/e2remapblocks.c:325-364 | every named block gets the inode and offset of the first line that names it |
| `LoadExtents.OwnedIff` | ext3remapper/e2remapblocks.c:325-364 | the owned blocks are the union of the blocks of all lines of remappable inodes |
| `LoadExtents.LoadsIff` | ext3remapper/e2remapblocks.c:302-368 | loading succeeds exactly if every line parses and none starts below all earlier ones and reaches the lowest; otherwise it ends at the first line that is wrong, with the error for what is wrong there |
| `LoadExtents.Loader.LinePass` | ext3remapper/e2remapblocks.c:325-364 | one turn of the loop keeps the state or makes the measure smaller, also when it only splays once more |
| `LoadExtents.Loader.LoadLine` | ext3remapper/e2remapblocks.c:325-364 | the loop over a line ends, with exactly the new blocks of the line added in ascending pieces, none cut shorter than it has to be |
| `LoadExtents.Loader.Load` | ext3remapper/e2remapblocks.c:302-368 | the outcome, the owners of all loaded blocks, disjoint extents each cut from one line and as long as it can be, in the order of the list, and as many blocks as chunk offsets |
| `LoadExtents.ChunkUnique` | ext3remapper/e2remapblocks.c:297-298 | each chunk offset below the total lies in exactly one extent |
| `LoadExtents.ChunkCount` | ext3remapper/e2remapblocks.c:297-298 | there are as many chunk offsets as covered blocks |
| `LoadExtents.LoggedDisjoint` | ext3remapper/e2remapblocks.c:271-300 | the listed extents are non-empty and pairwise disjoint |
| `LoadExtents.ChunksInListOrder` | ext3remapper/e2remapblocks.c:297-298 | of two loaded blocks, the one the list names first has the smaller chunk offset |
| `FreeRuns.ScanFinds` | ext3remapper/e2remapblocks.c:473-508 | the scan finds the first free stretch longer than the total from a multiple of 8, exactly if there is one; otherwise its runs are free, ascending and contain every free stretch that is long enough |
| `FreeRuns.ScanBitmap` | ext3remapper/e2remapblocks.c:473-508 | the loops over the bitmap terminate and compute that scan |
| `FreeRuns.TakeRuns` | ext3remapper/e2remapblocks.c:523-532 | the chosen runs are the first ones of at least half the given length, until they reach the total; the last one is fitted, and they are sound exactly if all that pass can hold the data |
| `FreeRuns.FindFreeBlocks` | ext3remapper/e2remapblocks.c:455-542 | which runs are chosen: the first longer one, or those of at least half the pivot, the length that separates the shortest runs needed from the rest; when the program gives up, and exactly when its choice is sound |
| `FreeRuns.NeededIsLeast` | ext3remapper/e2remapblocks.c:512-513 | the number of shortest runs that are counted is the least whose lengths reach the total, or all of them if there is none |
| `FreeRuns.EnoughMeans` | ext3remapper/e2remapblocks.c:514-517 | the program has enough runs exactly if any one of them could be spared |
| `FreeRuns.PivotIs` | ext3remapper/e2remapblocks.c:519-521 | the last run needed has the pivot length: the runs shorter than it cannot hold the data, those up to it can |
| `FreeRuns.PivotUnique` | ext3remapper/e2remapblocks.c:519-521 | there is only one such length |
| `FreeRuns.ThresholdMeans` | ext3remapper/e2remapblocks.c:519-532 | the runs above the threshold can hold the data exactly if the runs of at least half the pivot can |
| `FreeRuns.ThresholdCanFail` | ext3remapper/e2remapblocks.c:521-532 | a bitmap with five runs of at least 16 blocks, enough for the data, whose threshold leaves too little |
| `FreeRuns.ChoosesUnsound` | ext3remapper/e2remapblocks.c:455-542 | for that bitmap the program goes on with runs that are not sound |
| `FreeRuns.TargetsFree` | ext3remapper/e2remapblocks.c:572-590 | sound runs place every chunk offset on a free block |
| `FreeRuns.TargetsDistinct` | ext3remapper/e2remapblocks.c:572-590 | different chunk offsets have different places |
| `FreeRuns.TargetsAscend` | ext3remapper/e2remapblocks.c:572-590 | the places ascend with the chunk offsets |
| `FreeRuns.RunBlockTarget` | ext3remapper/e2remapblocks.c:572-590 | every block of a run is the place of a chunk offset |
| `FreeRuns.FindRemappedOffset` | ext3remapper/e2remapblocks.c:572-590 | the binary search finds the run that holds an offset exactly for offsets below the total |
| `Ext2.RePointPtr` | ext3remapper/e2remapblocks.c:669-686 | setting one pointer changes it and no other pointer of any file |
| `Ext2.MoveKeeps` | prefetch-initscripts/e2moveblocks/ext3_layout_optimize.cpp:484-500 | moving a copied block keeps all files and keeps blocks unshared |
| `Ext2.UnusedWritesKeep` | ext3remapper/e2remapblocks.c:606-620 | writing to blocks no file uses changes no file and no pointer |
| `BlockTree.CmpIsKeyOrder` | ext3remapper/e2remapblocks.c:373-391 | the comparison of codes is a total order, equal only for equal codes |
| `BlockTree.CodeRoundTrip` | ext3remapper/e2remapblocks.c:370-391 | the code of a block gives back its level and first offset, and no data block shares it |
| `BlockTree.CodeKey` | ext3remapper/e2remapblocks.c:370-391 | the code of a block sorts by first offset, deeper levels first |
| `BlockTree.InodeWalkOrder` | ext3remapper/e2remapblocks.c:623-672 | the pre-order walk of an inode visits strictly ascending keys |
| `BlockTree.InodeWalkMembers` | ext3remapper/e2remapblocks.c:760 | the walk visits exactly the slots of the inode |
| `Traverse.TravState` | ext3remapper/e2remapblocks.c:629-655 | what depth and tree indices are after each visited block, for every file |
| `Traverse.CodeAtKey` | ext3remapper/e2remapblocks.c:629-663 | how far a left-over index moves a computed code behind the documented one |
| `Traverse.CodeRight` | ext3remapper/e2remapblocks.c:629-663 | the computed code is the documented one if and only if no index is left over |
| `Traverse.CodesAscend` | ext3remapper/e2remapblocks.c:629-672 | the computed codes ascend if and only if no double-indirect block has a left-over index larger than the index of the single-indirect block visited next |
| `RemapBlocks.AdvanceFollows` | ext3remapper/e2remapblocks.c:668-672 | advancing by at most one extent per block never skips one, wherever the codes of the list are met |
| `RemapBlocks.DecideRight` | ext3remapper/e2remapblocks.c:664-688 | a listed block is changed to its new place, any other kept, and the walk is aborted only when nothing listed remains |
| `RemapBlocks.SeparatedIff` | ext3remapper/e2remapblocks.c:668-688 | in a walk that meets ascending codes all listed blocks are changed if and only if the extents of the inode do not interleave |
| `RemapBlocks.DescentSkips` | ext3remapper/e2remapblocks.c:668-688 | a block met right after a larger code is skipped, even when it is the only one listed |
| `RemapBlocks.VerdictMeans` | ext3remapper/e2remapblocks.c:664-688 | for any list: a block is changed only if an extent lists its code and names this very block, to the place of its chunk offset; which mistake of the list each error exit means |
| `RemapBlocks.AnyStep` | ext3remapper/e2remapblocks.c:664-688 | at a step of an ascending walk over any list: changed exactly if the extent reached names the block, the error exit exactly if it names another |
| `RemapBlocks.WrongMeans` | ext3remapper/e2remapblocks.c:674-678 | where the codes of a list that does not interleave are met, each is reached, and the error exit is taken exactly where another block is met |
| `RemapBlocks.NoneWrongIff` | ext3remapper/e2remapblocks.c:674-678 | in such a walk no error exit is taken exactly if the list names the blocks that are met |
| `RemapInode.VisitedIsVisit` | ext3remapper/e2remapblocks.c:760 | the iterator visits the slots that hold a block, each after its parent |
| `RemapInode.MetAscends` | ext3remapper/e2remapblocks.c:629-672 | the walk of a file meets ascending codes, and documented ones, exactly under these two conditions |
| `RemapInode.ChangesEveryIff` | ext3remapper/e2remapblocks.c:629-688 | the walk changes all listed blocks of every mapped, sorted list that does not interleave if and only if the codes it meets ascend |
| `WalkExamples.StaleDisorders` | ext3remapper/e2remapblocks.c:643-645 | for every block size a sound file system whose walk computes codes that do not ascend |
| `WalkExamples.ListedIsSkipped` | ext3remapper/e2remapblocks.c:668-672 | a sound file system and a sorted list of mapped extents that interleave: a listed indirect block is not changed, but its bit is cleared |
| `RemapInode.StepMoves` | ext3remapper/e2remapblocks.c:673-686 | each change keeps the files and leaves the copies of the blocks to come in place |
| `RemapInode.BlockTraverse.Descend` | ext3remapper/e2remapblocks.c:629-662 | the update of depth and tree indices |
| `RemapInode.BlockTraverse.RemapBlock` | ext3remapper/e2remapblocks.c:623-689 | the callback takes the decision and moves to the extent that it is about; it changes the block only if that extent names it, and the error exit means that an extent names another one |
| `RemapInode.RemapInodeBlocks` | ext3remapper/e2remapblocks.c:755-765 | for any list with an ascending walk and copies in place: it fails exactly if a code that is reached is met at another block than listed, and otherwise moves exactly the blocks named right and keeps every file; all listed blocks if the list fits |
| `RemapInode.AgreesIff` | ext3remapper/e2remapblocks.c:674-678 | where the walk meets the codes of a list that does not interleave, it finds nothing wrong exactly if the list names the blocks the file has |
| `CopyBlocks.WriteBuffer` | ext3remapper/e2remapblocks.c:611-619 | a buffer is written to the places of consecutive chunk offsets, or the write leaves the device |
| `CopyBlocks.CopyExtent` | ext3remapper/e2remapblocks.c:606-620 | the copy of an extent, and exactly when it stays on the device |
| `CopyBlocks.CopyInodeBlocks` | ext3remapper/e2remapblocks.c:592-621 | the copies of all extents, one after the other |
| `CopyBlocks.CopiedAt` | ext3remapper/e2remapblocks.c:607-619 | which block ends up in each place, and that nothing else changes |
| `CopyBlocks.CopiesRightIff` | ext3remapper/e2remapblocks.c:611-616 | an extent is copied right on every disk if and only if it fits into the buffer |
| `Remap.ListIsCopied` | ext3remapper/e2remapblocks.c:592-621 | all blocks of all extents of an inode are in their places, and nothing else has changed |
| `Remap.CopyMakesReady` | ext3remapper/e2remapblocks.c:755-760 | after the copy the pointers of the inode can be rewritten |
| `Remap.PlacesDistinct` | ext3remapper/e2remapblocks.c:673-686 | different listed blocks have different places |
| `Remap.RewriteProgress` | ext3remapper/e2remapblocks.c:746-765 | one more inode is done, and the places of the others are still unused |
| `Remap.CopyAndRemapExtents` | ext3remapper/e2remapblocks.c:738-766 | over all inodes: every file reads the same everywhere, listed blocks are in their places, all others where they were; for lists that may be wrong, that it fails exactly if one is |
| `RemapPlan.SortedExtents` | ext3remapper/e2remapblocks.c:402-434 | sorting keeps the extents of an inode and orders them as the walk meets them |
| `RemapPlan.PlanApart` | ext3remapper/e2remapblocks.c:271-300 | the chunk offsets are shared out among the extents of all inodes without overlap |
| `RemapProgram.PlanIsGood` | ext3remapper/e2remapblocks.c:771-793 | right input, sound runs and walkable extents are all the rewriting needs |
| `RemapProgram.SlotFate` | ext3remapper/e2remapblocks.c:738-766 | each pointer is kept and was not listed, or was listed and has moved to a place of its own |
| `RemapProgram.DiskInListOrder` | ext3remapper/e2remapblocks.c:297-298 | in the end the listed blocks lie on the disk in the order in which the list names them |
| `RemapProgram.BitmapExact` | ext3remapper/e2remapblocks.c:691-736 | the marked blocks are those the files use now and those marked before for other reasons |
| `RemapProgram.UpdateIsClean` | ext3remapper/e2remapblocks.c:698-727 | marked blocks were free, freed ones used, none twice, and both are equally many |
| `RemapProgram.Run` | ext3remapper/e2remapblocks.c:771-793 | the whole program: outcome, runs, files, places, bitmap, group counts, exactly when it hangs, and exactly when it stops at a block that is listed wrong |
| `GroupCounts.ClearBitsSet` | ext3remapper/e2remapblocks.c:699-713 | what setting or clearing a range does to the clear bits of an interval |
| `GroupCounts.StepBounds` | ext3remapper/e2remapblocks.c:704-710 | one turn of the loop stays in a group, and makes no progress exactly at a multiple of the group size |
| `GroupCounts.Groups.Adjust` | ext3remapper/e2remapblocks.c:701-711 | the counts of all groups change by the blocks of the range in them; the loop hangs exactly if a multiple is in the range |
| `GroupCounts.Groups.MarkRange` | ext3remapper/e2remapblocks.c:698-712 | flipping a range keeps every count equal to the clear bits of its group |
| `GroupCounts.Groups.UpdateBitmap` | ext3remapper/e2remapblocks.c:691-736 | the final bits, the total of the counts, and that the counts stay right |
| `Estimate.PathsCount` | prefetch-initscripts/e2moveblocks/ext3_layout_optimize.cpp:847-858 | the exact number of data and indirect blocks of a range |
| `Estimate.Recurring` | prefetch-initscripts/e2moveblocks/ext3_layout_optimize.cpp:847-858 | a block on the way to an offset has occurred before only if it is on the way to the offset before |
| `Estimate.EstimateBlocksForRange` | prefetch-initscripts/e2moveblocks/ext3_layout_optimize.cpp:853-940 | the estimate is exact, or one too high exactly under the stated condition |
| `MoveBlocks.FindContiguousFreeSpace` | prefetch-initscripts/e2moveblocks/ext3_layout_optimize.cpp:215-256 | the first place with enough free blocks, found if and only if there is one |
| `MoveBlocks.MoveStep` | prefetch-initscripts/e2moveblocks/ext3_layout_optimize.cpp:304-368 | one move keeps the files, the bitmap and the counts, and takes the next block of the area |
| `MoveBlocks.MoveCounts` | prefetch-initscripts/e2moveblocks/ext3_layout_optimize.cpp:360-366 | the counts of the two groups stay equal to their clear bits, and the total stays |
| `MoveBlocks.AreaPrefix` | prefetch-initscripts/e2moveblocks/ext3_layout_optimize.cpp:1248-1256 | the used blocks of the area are exactly a prefix of it |
| `MoveBlocks.Decision` | prefetch-initscripts/e2moveblocks/ext3_layout_optimize.cpp:462-500 | a hole or a block in the area is left alone, any other block can be moved |
| `MoveBlocks.FsInfo.RelocateRawBlock` | prefetch-initscripts/e2moveblocks/ext3_layout_optimize.cpp:304-368 | the checks, the copy, the bitmap and the counts |
| `MoveBlocks.FsInfo.RelocateBlockInInode` | prefetch-initscripts/e2moveblocks/ext3_layout_optimize.cpp:453-501 | moving the block behind an entry of the inode keeps the running state and never fails |
| `MoveBlocks.FsInfo.RelocateBlockInIndirectBlock` | prefetch-initscripts/e2moveblocks/ext3_layout_optimize.cpp:503-591 | the same for an entry of an indirect block, and where the next block is |
| `MoveBlocks.FsInfo.RelocateBlock` | prefetch-initscripts/e2moveblocks/ext3_layout_optimize.cpp:593-809 | the block at an offset and the indirect blocks on its way are moved, each at most once |
| `MoveBlocks.FsInfo.RelocateBlocks` | prefetch-initscripts/e2moveblocks/ext3_layout_optimize.cpp:816-845 | the same over a range |
| `MoveBlocks.OrderBounded` | prefetch-initscripts/e2moveblocks/ext3_layout_optimize.cpp:1155-1160 | no more blocks are moved than the ranges of the layout have |
| `MoveBlocks.EstimateLayout` | prefetch-initscripts/e2moveblocks/ext3_layout_optimize.cpp:1155-1160 | the sum of the exact numbers of all ranges, plus one for each range that is estimated too high |
| `MoveBlocks.Run` | prefetch-initscripts/e2moveblocks/ext3_layout_optimize.cpp:1239-1280 | the area is the first that fits; once it is found the program never fails, keeps every file and fills a prefix of the area in order |
| `LayoutOrder.DataOnOnePath` | prefetch-initscripts/e2moveblocks/ext3_layout_optimize.cpp:627-785 | the data block at an offset is on the way to no other offset |
| `LayoutOrder.PathEnds` | prefetch-initscripts/e2moveblocks/ext3_layout_optimize.cpp:627-785 | the way to an offset ends at the data slot of just that offset |
| `LayoutOrder.MovedExactly` | prefetch-initscripts/e2moveblocks/ext3_layout_optimize.cpp:593-809 | after a run a slot points into the area exactly if it held a block and is on the way to a named offset that is not triple-indirect; the block that stores it lies in the area before the block it points to, and all other slots are as they were |
| `LayoutOrder.WayMoved` | prefetch-initscripts/e2moveblocks/ext3_layout_optimize.cpp:593-809 | after a run the whole way to a named block lies in the area, each indirect block before the next one |
| `LayoutOrder.NamedBlocksAscend` | prefetch-initscripts/e2moveblocks/ext3_layout_optimize.cpp:1263-1280 | the blocks a layout names have ascending addresses in the order of the layout |
| `LayoutOrder.NeighboursClose` | prefetch-initscripts/e2moveblocks/verifyfslayout.py:151-172 | without holes at most two blocks lie between a block named for the first time and the one named for the first time before it |
| `LayoutOrder.FirstClose` | prefetch-initscripts/e2moveblocks/ext3_layout_optimize.cpp:1263-1280 | at most two blocks of the area lie before the first named block |
| `BlockToFile.Compact` | ext3remapper/e2block2file.c:131-146 | merging in place keeps the covered blocks and leaves extents with gaps between them |
| `BlockToFile.LoadBlocks` | ext3remapper/e2block2file.c:99-147 | a block is covered exactly if it is one of the whole blocks of a traced range of sectors that does not begin before the partition, counted from the start of the partition |
| `Intervals.SeparatedUnique` | ext3remapper/e2block2file.c:131-146 | there is only one such list for a set, whatever the order of the input |
| `BlockToFile.FindBlock` | ext3remapper/e2block2file.c:167-185 | the guarded search with its early exit finds an extent exactly for covered blocks |
| `BlockToFile.BlockMap.InsertNewBlock` | ext3remapper/e2block2file.c:202-237 | the map gains exactly the one block, by continuing the last entry of its inode or beginning one, and keeps its entries disjoint |
| `BlockToFile.SortedMap` | ext3remapper/e2block2file.c:517 | sorting disjoint entries gives a map that can be searched, with the same meaning |
| `BlockToFile.FindMapBlock` | ext3remapper/e2block2file.c:491-508 | the search gives the entry that holds the block, or the next one |
| `BlockToFile.DumpRange` | ext3remapper/e2block2file.c:519-550 | the printed pieces are consecutive, make up the range, are as long as they can be, and each is a part of one entry or right in that no file has its blocks |
| `BlockToFile.DumpTimes` | ext3remapper/e2block2file.c:510-552 | the lines of all traced ranges in their order, those of each range consecutive and making it up |
| `BlockToFile.LinesCover` | ext3remapper/e2block2file.c:510-552 | every block of every traced range is in a printed line |
| `StoreBlocks.MetTwice` | ext3remapper/e2block2file.c:239-288 | without sharing no block is met twice in any walk |
| `StoreBlocks.StoreBlock` | ext3remapper/e2block2file.c:239-288 | the callback stores a block exactly if it is traced, with the code of the walk |
| `StoreBlocks.MapBlocks` | ext3remapper/e2block2file.c:291-334 | the map holds exactly the traced blocks of all files, each once, at the code the walk meets it at, and no entry reaches over another traced block |
| `StoreBlocks.ListIsExact` | ext3remapper/e2block2file.c:510-552 | a list of right lines that contain all traced blocks, read back, is exactly the relation between traced blocks and the walks of the files |
| `StoreBlocks.ListTraced` | ext3remapper/e2block2file.c:510-552 | the whole program: one group of lines for each traced range in the partition, in the order of the trace, consecutive from its first whole block to its last; and read back the list gives exactly the traced blocks that files have, each with its inode and code |
| `StoreBlocks.PrintedIsRight` | ext3remapper/e2block2file.c:510-552 | the printed list names blocks where the files have them, as e2remapblocks needs it |
| `StoreBlocks.PrintedSeparated` | ext3remapper/e2remapblocks.c:402-434 | the extents loaded from a printed list and sorted do not interleave in the order of an ascending walk |
| `StoreBlocks.PrintedIsWalkable` | ext3remapper/e2remapblocks.c:668-672 | a printed list can be walked exactly if the walks meet ascending codes and the extents fit into the buffer |
| `TraceBuffer.FetchBetween` | kernel-patches/2.6.22/prefetch-core+boot+app-clean.diff:2479-2533 | in every interleaving a fetch gives exactly what was stored between its markers, or fails exactly when a clearing came between |
| `TraceBuffer.NoBug` | kernel-patches/2.6.22/prefetch-core+boot+app-clean.diff:2519-2520 | the consistency check never fails, whatever the markers |
| `TraceBuffer.MarkerStays` | kernel-patches/2.6.22/prefetch-core+boot+app-clean.diff:2460-2470 | a marker of the current generation is within the buffer, an older one is not found |
| `TraceBuffer.Grows` | kernel-patches/2.6.22/prefetch-core+boot+app-clean.diff:3108-3116 | the generation counts the clearings, and between them the buffer only grows by what is stored |
| `TraceBuffer.FirstRecordsKept` | kernel-patches/2.6.22/prefetch-core+boot+app-clean.diff:2072-2077 | an empty buffer takes the first records up to its capacity and has overflowed exactly if there were more |
| `TraceBuffer.FlagsMean` | kernel-patches/2.6.22/prefetch-core+boot+app-clean.diff:3108-3116 | in every interleaving the buffer is marked as overflowed exactly if a record was dropped since the last clearing, and as reported exactly if it was asked for since then |
| `TraceBuffer.ReportedOnce` | kernel-patches/2.6.22/prefetch-core+boot+app-clean.diff:2735-2740 | between two reports of an overflow there is a clearing |
| `TraceBuffer.SizeMeans` | kernel-patches/2.6.22/prefetch-core+boot+app-clean.diff:3080-3121 | the buffer is made by the first clearing that got memory, and keeps its size |
| `TraceBuffer.PrefetchTrace.Add` | kernel-patches/2.6.22/prefetch-core+boot+app-clean.diff:2063-2088 | adding writes the next place of the buffer or sets the overflow |
| `TraceBuffer.PrefetchTrace.ClearTrace` | kernel-patches/2.6.22/prefetch-core+boot+app-clean.diff:3080-3121 | clearing, with the allocation outside the lock and anything happening meanwhile |
| `TraceBuffer.PrefetchTrace.GetPrefetchTraceFragment` | kernel-patches/2.6.22/prefetch-core+boot+app-clean.diff:2479-2533 | the fetch reads the part of the buffer between the markers |
| `TraceUsers.HolderKeeps` | kernel-patches/2.6.22/prefetch-core+boot+app-clean.diff:2897-2911 | while a client uses the trace nothing is cleared, whatever the others do |
| `TraceUsers.HolderFetches` | kernel-patches/2.6.22/prefetch-core+boot+app-clean.diff:2887-2911 | all fragments between markers taken while using the trace can be fetched, and are what was stored |
| `TraceUsers.MarkerSurvives` | kernel-patches/2.6.22/prefetch-core+boot+app-clean.diff:2897-2911 | the trace behind a marker survives, exactly as long as no last user releases it |
| `TraceUsers.OwnMarker` | kernel-patches/2.6.22/prefetch-core+boot+app-clean.diff:2765-2772 | the marker of a client is the place of its start if nobody was tracing then, and otherwise what it was before |
| `TraceUsers.StartMarkerFetches` | kernel-patches/2.6.22/prefetch-core+boot+app-clean.diff:2765-2853 | what a client fetches from its own marker; it is exactly what has been stored since its start if and only if no last user released before it was counted, and it was the only tracer or its marker stood there already |
| `TraceUsers.StartMarkerCanBeLost` | kernel-patches/2.6.22/prefetch-core+boot+app-clean.diff:2843-2849 | a run in which the last user releases between a start marker and the count of its client |
| `TraceUsers.SecondTracerLoses` | kernel-patches/2.6.22/prefetch-core+boot+app-clean.diff:2765-2772 | a run of two clients in which nobody releases and the second one can fetch nothing from its marker |
| `BootTrace.Tracing.WalkPages` | kernel-patches/2.6.22/prefetch-core+boot+app-clean.diff:2721-2832 | the walk with its error exits, counters and markers |
| `BootTrace.BootTracing.StartBootTracingPhase` | kernel-patches/2.6.22/prefetch-core+boot+app-clean.diff:1414-1462 | starting a phase, with the fragment that is saved for the one before |
| `BootTrace.BootTracing.StopBootTracing` | kernel-patches/2.6.22/prefetch-core+boot+app-clean.diff:1537-1582 | stopping, with the last fragment and the release |
| `BootTrace.CountedKeeps` | kernel-patches/2.6.22/prefetch-core+boot+app-clean.diff:2897-2911 | while the boot tracer is counted as a user, no release by others clears the trace |
| `BootTrace.PhaseTiles` | kernel-patches/2.6.22/prefetch-core+boot+app-clean.diff:1423-1440 | one more phase extends what has been saved without gap or overlap |
| `BootTrace.PhasesTile` | kernel-patches/2.6.22/prefetch-core+boot+app-clean.diff:1414-1582 | over any run the saved phases joined are exactly what was stored from the start of the first phase to the stop marker, if and only if nothing was cleared before the boot tracer was counted, and it was the first tracer or its old marker stood there |
| `BootTrace.PhasesSaved` | kernel-patches/2.6.22/prefetch-core+boot+app-clean.diff:1414-1582 | what the saved phases joined are in every other case |
| `BootTrace.BootMarkerPast` | kernel-patches/2.6.22/prefetch-core+boot+app-clean.diff:1414-1582 | the marker of the boot tracer is always one taken earlier, whether steps fail or not |
| `BootTrace.RunBalances` | kernel-patches/2.6.22/prefetch-core+boot+app-clean.diff:1414-1582 | after such a run each phase has been saved once, under its own name and in order, and the boot tracer has given back its places among tracers and users |
| `BootTrace.PlacesBalance` | kernel-patches/2.6.22/prefetch-core+boot+app-clean.diff:2721-2832 | over any run, whatever fails: the boot tracer is one user exactly while it runs, and one tracer then plus one for ever for each failed first walk or failed stop; an overflow at a stop gives its place back, and nothing saved is lost |
| `TraceMerge.SortInOrder` | prefetch-initscripts/prefetch-process-trace.cpp:62-88 | sorting gives a permutation in the order of the comparison |
| `TraceMerge.MergeTrace` | prefetch-initscripts/prefetch-process-trace.cpp:173-212 | merging sorted records gives sorted maximal runs of the same pages, each with the lowest index of its records |
| `TraceMerge.TraceFileData.SortedSum` | prefetch-initscripts/prefetch-process-trace.cpp:434-440 | the trace becomes the sum of its records |
| `TraceMerge.CanonicalUnique` | prefetch-initscripts/prefetch-process-trace.cpp:173-212 | there is only one list of sorted maximal runs for a set of pages |
| `TraceMerge.SumUnique` | prefetch-initscripts/prefetch-process-trace.cpp:434-440 | the sum of records of positive length does not depend on their order |
| `TraceMerge.SumIdempotent` | prefetch-initscripts/prefetch-process-trace.cpp:434-440 | summing a sum changes nothing |
| `WalkCache.Session.AddReferencedPageRange` | work/prefetch-module/prefetch.c:418-431 | the counters, and the traced range unless a clearing run is in progress or the file is on no device |
| `WalkCache.Finish` | work/prefetch-module/prefetch.c:494-499 | the finished ranges are the maximal runs of the referenced pages walked so far |
| `WalkCache.NextPage` | work/prefetch-module/prefetch.c:507-526 | one page continues the pending range or ends it, and when the empty range is emitted |
| `WalkCache.Session.WalkFileCache` | work/prefetch-module/prefetch.c:476-531 | the walk clears all bits and emits the maximal runs, whose lengths sum to the number of referenced pages; they are traced unless a clearing run is in progress or the file is on no device |
| `WalkCache.RunsUnique` | work/prefetch-module/prefetch.c:476-531 | the runs do not depend on the size of the batches |

## Left out

- Devices, files, proc entries, options, text parsing, printing, timing and memory allocation failures.
- The library functions of libext2fs and the kernel's lists and page trees: the block iterator is a pre-order walk over
  the slots that hold a block, the page lookup gives the next pages by index, sorting is an insertion sort.
- Machine integers: numbers are unbounded.
- The hash table of inodes in e2remapblocks, which is not cleared and whose chains point into an array that moves; a map
  from inode numbers to lists stands for it. `ListInodes` takes the inodes in any order.
- The array of map entries in e2block2file moves as well while inodes point into it; indexes stand for those pointers.
- RemapProgram.Run: `Crashed` stands for leaving the arrays of the bitmap, which the promised conditions exclude; what
  the program has done to the disk when it exits early is not stated, nor what it does in a walk that does not ascend.
- Remap.CopyAndRemapExtents: whether an inode still has links is not modelled.
- MoveBlocks.Run: says nothing about the disk after a failure part of the way, which its precondition excludes.
- MoveBlocks.FsInfo.RelocateBlock: an inode without block pointers is one that the model does not have; blocks behind
  triple-indirect blocks are not moved, as in the code.
- TraceBuffer.PrefetchTrace.GetPrefetchTraceFragment: the allocation of the fragment never fails.
- BootTrace.PhasesTile: assumes that no step fails; writing the files always succeeds.
- TraceUsers.StartMarkerFetches: a start or a stop whose walk over the pages fails is not a step of a client.
- WalkCache.Session.WalkFileCache: pages do not become referenced while they are walked.
- The cursor over inodes that is saved between reads, the merging of trace fragments in the older prefetch module,
  prefetching itself, and the application module.
- StoreBlocks.ListTraced: traced ranges before the partition, for which lines without a file are printed, are skipped.
- Names of files in the output of e2block2file, and its listing by inode.
