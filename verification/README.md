# A model of the Boehm-Demers-Weiser collector

The files here model the collector in `atomix/bdwgc` (version 8.2.8) and prove what it is relied on
for. Operations that change state are methods of classes over the same tables, stacks and lists, each
proved against an abstract description of the state; the lemmas beside them carry the arguments.

| part | modules |
|---|---|
| serial marker: the states of a full collection over a bounded mark stack | `MarkWorld`, `MarkState`, `MarkSteps`, `MarkWork`, `MarkScan`, `MarkPhases`, `MarkRoots`, `Marker` |
| parallel marker: N threads, atomic actions, every interleaving | `ParallelState`, `ParallelSteps`, `ParallelScan`, `ParallelMoves`, `ParallelMark`, `ParallelRuns`, `ParallelMarker` |
| block allocator: tiling, free lists, counters, search | `HeapTiles`, `FreeLists`, `HeapInv`, `TileSteps`, `Neighbours`, `FreeListSteps`, `CouplingSteps`, `TakeSteps`, `HeapSteps`, `FreeSteps`, `GrowSteps`, `HeapCount`, `BlockSearch`, `SearchSteps`, `BlockAllocator`, `HeapClients` |
| header index and its traversals | `IndexSpec`, `IndexSteps`, `Headers` |
| small objects, size map, free-list marks | `SmallSpec`, `SmallSteps`, `StoreSteps`, `SizeClasses`, `SmallObjects`, `FreeListMarks` |
| finalization and link tables | `ChainSpec`, `ChainSteps`, `ChainTable`, `FinalizeSpec`, `FinalizeSteps`, `Finalization` |
| roots, exclusions, black lists | `RootTables`, `RootSteps`, `RootListSteps`, `Exclusions`, `StaticRoots`, `BlackSpec`, `BlackSteps`, `BlackLists` |

The main results:

- **Marking.** `Marker.MarkAll`: marked if and only if reachable, whatever overflows happened, and
  marking ends if the stack has an entry for each object of any one block that may hold pointers; if it has too few for
  the marked objects of such a block that the heap scan has ahead, marking never ends unless the stack is grown (`MarkOften`).
  It is aborted only for lack of room for static root ranges. The invariant says of every field of a marked object that it was examined, is on the
  stack, is in the hands of the scan loop, or lies in a block that the heap rescan still has ahead.
- **Parallel marking.** `ParallelMarkIsSafe`, `ParallelMarksReachable`, `QuietIsForever`: no
  interleaving loses work or ends early; `MarkInRounds` is a collection in which serial and parallel marking alternate.
- **Heap.** One invariant (`HeapInv.Sound`): headers tile the heap, index slots agree with them, no two
  free blocks are neighbours, links spell out the free lists, each free block is on the list for its
  size, and all counters are sums. Allocation, freeing and growing keep it and say exactly which memory
  moves; `AllSearched` makes the search complete under every policy for splitting, `SourcedLate` makes it a best fit,
  and `UsedPlusFree` conserves the heap size.
- **Index.** `ApplyToAllBlocks`, `NextBlock` and `PrevBlock` agree with the abstract map.
- **Small objects.** One invariant (`SmallSpec.StoreOk`) kept by every step; `NothingOverlaps` follows. Every step also keeps
  `SmallSpec.NothingLost`: each object of a block in use is handed out or on its free list.
- **Finalization.** `Finalize` with `UnclaimedNews` (what is enqueued, from any table), `ExactNews`,
  `EnoughStack`, `NoOrderNews`, `CyclesAreNot`, `Conserved`, `IntactAfter`, `LongImpliesShort`.
- **Tables.** Exclusions, roots and black lists agree with the sets that they stand for.

Constants are those of a 64-bit build: words of 8 bytes, heap blocks of 4096, granules of 16,
`EXTRA_BYTES` 0 or 1, `ALIGNMENT` 4 or 8. Blocks are named by number (address / 4096) in the allocator
and index, by byte address in the marker; small objects are addressed in words. Whether memory can be
had, what a word of memory points to, the outcome of a collection, and `GC_is_black_listed` inside the
block search are parameters or free choices; `ServesAllocator` discharges the last.

The code was followed where it differs from what is written about it, or does what one may not expect:

- The comment on `GC_active_count` (`mark.c:785-789`) says that once it is 0 it stays 0 for the cycle. A
  late helper can raise it again (`LateHelper`); it stays 0 if and only if none joins and, should there
  be entries left, no waiting thread goes on (`CountStaysZero`). That there is no work left is what is
  stable (`QuietIsForever`).
- The overlap check in `GC_exclude_static_roots_inner` is called incomplete (`mark_rts.c:582`). On the
  sorted table that the function maintains it is complete (`OneCheckIsEnough`).
- The comment on `GC_number_stack_black_listed` (`blacklst.c:271-273`) says that it looks only at the
  incomplete list; the code looks at the old one, and so does `NumberListed`.
- `gc.h:1112-1123` says that an unreachable object that no other finalizable one reaches is finalized. If
  the mark stack overflows while its mark procedure runs, `GC_MARK_FO` marks the object itself and it
  waits for another collection (`WideIsKeptBack`). Exactly those are kept back (`ExactNews`), and an object
  that reaches fewer unmarked objects than the stack has entries is not one of them (`EnoughStack`).
- An entry left in the finalization queue by an earlier collection counts as a root. If it is to be
  finalized only when unreachable, Java mode moves it back to the table, without a look at what is
  registered for the object by then: two entries with the same key may result (`QueuedAndRegistered`,
  with the exact condition in `IntactAfter`).
- With parallel marking `GC_clear_fl_marks` does not lower a mark count of 1; `ClearFlMarks` says for which
  blocks the count is then wrong.
- If the stack cannot be grown, the rescan after an overflow may overflow at the same block again and again:
  nine uncollectable objects in one block and a stack of eight entries are enough (`NineNeverEnd`).

## Model

| member | source | states |
|---|---|---|
| Marker.Marker.MarkAll | atomix/bdwgc/mark.c:199-386 | after a stopped full mark an object is marked exactly when it is reachable from the roots, the free-list arrays or an uncollectable object that kept its mark, however often the mark stack overflowed; it ends if no block that may hold pointers has more objects than the stack has entries at the start; it is never aborted when the non-empty static root ranges fit into three quarters of that stack, and always when they do not fit into the stack as it is at the end |
| Marker.Marker.MarkSome | atomix/bdwgc/mark.c:267-386 | each call keeps the marker invariant and makes a lexicographic measure smaller (unmarked objects, phase, heap left to rescan, stack work), in the heap rescan if the stack has room for what one block pushes; TRUE exactly when the phase becomes MS_NONE; no abort with few static roots; a state without hope stays one |
| Marker.Marker.SomeUncollectable | atomix/bdwgc/mark.c:299-319 | MS_PUSH_UNCOLLECTABLE keeps the invariant and always makes progress, also when pushing a block or the roots overflows; no abort with few static roots |
| Marker.Marker.SomeRootsPushed | atomix/bdwgc/mark.c:321-352 | MS_ROOTS_PUSHED: finished exactly when the stack is empty |
| Marker.Marker.SomeInvalid | atomix/bdwgc/mark.c:354-380 | MS_INVALID and MS_PARTIALLY_INVALID: the heap rescan recovers every dropped entry, and, with room for what one block pushes, each restart follows a newly marked object; no abort with few static roots; a block that pushes more than the stack holds is never passed |
| Marker.Marker.SomeRescan | atomix/bdwgc/mark.c:364-380 | one step of that rescan, with an empty mark stack |
| Marker.Marker.EnterRoots | atomix/bdwgc/mark.c:310-318 | pushing the roots and entering MS_ROOTS_PUSHED succeeds exactly if the entries on the stack and the non-empty static ranges together fit |
| Marker.Marker.ClearMarks | atomix/bdwgc/mark.c:199-205 | exactly the marks of uncollectable blocks, of both kinds, survive, and what is left satisfies the invariant of MS_INVALID |
| Marker.Marker.MarkFrom | atomix/bdwgc/mark.c:516-778 | marking from the stack until it is empty or the credit is spent keeps the invariant and shrinks the measure |
| Marker.Marker.ScanTop | atomix/bdwgc/mark.c:547-775 | one turn of the outer loop considers every word it takes off the top entry exactly once and loses nothing |
| Marker.Marker.ScanRange | atomix/bdwgc/mark.c:697-735 | trailing implausible words are dropped and the highest plausible one deferred without skipping or repeating a word |
| Marker.Marker.ScanForward | atomix/bdwgc/mark.c:737-773 | the words below and then the deferred one are each considered once |
| Marker.Marker.ScanBits | atomix/bdwgc/mark.c:603-633 | a bitmap descriptor makes exactly its words considered |
| Marker.Marker.Push | atomix/bdwgc/mark.c:484-499 | a push onto a full stack discards an eighth of the initial size, goes to MS_INVALID and still stores the new entry |
| Marker.Marker.PushContents | atomix/bdwgc/private/gc_pmark.h:263-360 | considering one word of the scan in hand keeps the invariant of the scan |
| Marker.Marker.PushTarget | atomix/bdwgc/private/gc_pmark.h:263-360 | an unmarked target is marked, and pushed unless pointer-free |
| Marker.Marker.PushMarked | atomix/bdwgc/mark.c:1741-1794 | unless the stack overflows, every marked object of the block that may hold pointers ends up on the stack; it overflows exactly if they do not fit |
| Marker.Marker.PushNextMarked | atomix/bdwgc/mark.c:1863-1878 | the scan pointer moves past the next allocated block only after its marked objects were pushed |
| Marker.Marker.PushNextMarkedUncollectable | atomix/bdwgc/mark.c:1924-1953 | the same for uncollectable blocks, skipping all others |
| Marker.Marker.MarkOften | atomix/bdwgc/mark.c:354-380 | however often GC_mark_some is called with a block ahead whose marked objects do not fit into the stack: it does not return TRUE unless the stack has been grown |
| Marker.NineNeverEnd | atomix/bdwgc/mark.c:299-380 | a heap of one block for which marking never ends as long as the stack cannot be grown |
| MarkPhases.DoomedScan | atomix/bdwgc/mark.c:1863-1953 | the scan pointer cannot get past a block that pushes more entries than the stack holds without an overflow, which sends it back |
| Marker.Marker.PushAll | atomix/bdwgc/mark.c:1195-1214 | every aligned word of the range is pending afterwards; aborts exactly for a non-empty range that meets a full stack |
| Marker.Marker.PushAllEager | atomix/bdwgc/mark.c:1469-1493 | every object named by a word of the stack range is marked afterwards |
| Marker.Marker.PushRoots | atomix/bdwgc/mark_rts.c:888-961 | all roots are covered afterwards and the state is no worse than before; aborts exactly if the non-empty static ranges do not fit |
| Marker.Marker.PushStatics | atomix/bdwgc/mark_rts.c:888-961 | the part about static data |
| Marker.Marker.PushStacks | atomix/bdwgc/mark_rts.c:888-961 | every thread stack is covered, eagerly if interior pointers or room are missing, and never aborts |
| Marker.Marker.GrowStack | atomix/bdwgc/mark.c:1140-1181 | the stack is doubled or, if memory is short, kept; the flag that asked for it is cleared |
| MarkPhases.MarkedIsReachable | atomix/bdwgc/mark.c:321-352 | in MS_NONE the invariant means: marked if and only if reachable |
| MarkPhases.ScanPast | atomix/bdwgc/mark.c:1863-1878 | after a block's marked objects were pushed it needs no excuse from the scan pointer |
| MarkPhases.ScanFinished | atomix/bdwgc/mark.c:359-380 | when the rescan reaches the end of the heap nothing is excused any more |
| MarkPhases.StartUncollectable | atomix/bdwgc/mark.c:356-359 | with only the kept marks, scanning uncollectable blocks is enough |
| MarkWork.SplitIsExact | atomix/bdwgc/mark.c:555-606 | cutting 127 words off a long entry divides its words into two disjoint parts |
| MarkWork.EachWordOnce | atomix/bdwgc/mark.c:547-602 | over all cuts of an entry each of its aligned words is visited exactly once, any other never |
| MarkSteps.PushKeepsInv | atomix/bdwgc/private/gc_pmark.h:263-360 | PUSH_CONTENTS of any word keeps the whole invariant, overflow included |
| MarkSteps.TakeFromTop | atomix/bdwgc/mark.c:547-606 | taking an entry (or part of it) off the stack into the scan loop's hands loses nothing |
| MarkRoots.RoundingKeepsWords | atomix/bdwgc/mark.c:1195-1214 | rounding a range inwards loses no aligned word that lies inside it |
| MarkRoots.RootsDone | atomix/bdwgc/mark_rts.c:888-961 | when all root ranges were pushed the roots clause of the invariant holds |
| ParallelMark.ParallelMarkIsSafe | atomix/bdwgc/mark.c:1078-1106 | for any number of threads and any interleaving: when GC_do_parallel_mark has returned no work is left anywhere, no helper is inside, and the serial marker's invariant holds with an empty stack or the phase is MS_INVALID |
| ParallelMark.ParallelMarksReachable | atomix/bdwgc/mark.c:1078-1106 | from MS_ROOTS_PUSHED, if nothing overflowed, exactly the reachable objects are marked |
| ParallelMark.QuietIsForever | atomix/bdwgc/mark.c:978-1072 | no active thread and GC_first_nonempty past the top means no work is left, and there never will be any again in this phase |
| ParallelMark.RunKeepsGood | atomix/bdwgc/mark.c:847-1134 | the protocol invariant holds after every run; marks only grow; the phase stays or becomes MS_INVALID |
| ParallelMark.StartIsGood | atomix/bdwgc/mark.c:1078-1093 | what the serial marker left on the stack is a good start |
| ParallelMark.NoWorkMeansInv | atomix/bdwgc/mark.c:1094-1106 | no work left means the serial invariant with an empty stack |
| ParallelMoves.StepKeepsGood | atomix/bdwgc/mark.c:847-1134 | every atomic action of every thread keeps the protocol invariant |
| ParallelMoves.NoWorkStays | atomix/bdwgc/mark.c:978-1072 | no action creates work once there is none |
| ParallelMoves.ClearCellSound | atomix/bdwgc/mark.c:847-879 | stealing: storing 0 over an entry that was read loses no word, even if others stole it too |
| ParallelMoves.CopySound | atomix/bdwgc/mark.c:883-910 | returning entries: the copy is harmless until published, and a full stack gives MS_INVALID |
| ParallelMoves.ReleaseSound | atomix/bdwgc/mark.c:883-910 | moving GC_mark_stack_top publishes exactly the copied entries |
| ParallelMoves.EndsStay | atomix/bdwgc/mark.c:1078-1106 | the caller withdraws the call for help when it leaves and returns only when no helper is left |
| ParallelSteps.IdleMeansNoWork | atomix/bdwgc/mark.c:978-1072 | zero active threads and first-nonempty beyond the top: all cells are cleared and all local stacks empty |
| ParallelSteps.FrontAndBack | atomix/bdwgc/mark.c:561-585 | halves of a shared range together have exactly its words |
| ParallelScan.VisitStays | atomix/bdwgc/mark.c:933-967 | taking an entry off the local stack keeps the invariant |
| ParallelScan.SplitStays | atomix/bdwgc/mark.c:561-585 | so does leaving the back half of a long range to others |
| ParallelScan.ConsiderSound | atomix/bdwgc/private/gc_pmark.h:139-160 | so does PUSH_CONTENTS on a mark bit read before another thread set it |
| ParallelRuns.NeverStuck | atomix/bdwgc/mark.c:978-1072 | a thread inside GC_mark_local can always act unless it waits for the mark lock |
| ParallelRuns.RunPhase | atomix/bdwgc/mark.c:933-967 | a parallel mark falls back to MS_INVALID if and only if some action met a full local or shared stack |
| ParallelRuns.StepPhase | atomix/bdwgc/mark.c:933-967 | the same for one action |
| ParallelRuns.MayEnd | atomix/bdwgc/mark.c:978-1106 | a parallel mark can end: a run in which the thread that asked for help takes the only entry off the stack, scans it, finds nothing left and returns |
| ParallelMarker.SomeInParallel | atomix/bdwgc/mark.c:321-343 | GC_do_parallel_mark as a step of the marker: after any interleaving the marker is ready to rescan, or done with exactly the reachable objects marked |
| ParallelMarker.MarkInRounds | atomix/bdwgc/mark.c:267-386 | over every finite sequence of serial and parallel calls of GC_mark_some from GC_clear_marks on, with any interleaving in each parallel one: if the last returns TRUE, exactly the reachable objects are marked; every round is what the parallel mark returned, or ends the collection or leaves less to do (in the heap rescan, if the stack has room) |
| ParallelRuns.LateHelper | atomix/bdwgc/mark.c:785-789 | a run in which the active count goes from 0 back to 1, so the comment on GC_active_count is too strong |
| ParallelRuns.WhatRaises | atomix/bdwgc/mark.c:978-1134 | with nobody active the count goes to 1 exactly when a helper joins or a waiting thread finds GC_first_nonempty at or below the top |
| ParallelRuns.CountStaysZero | atomix/bdwgc/mark.c:785-789 | over every run: having returned to 0 the count stays at 0 if and only if no such action follows |
| ParallelRuns.OnlyHelpersRaise | atomix/bdwgc/mark.c:785-789 | when marking is over: if and only if no helper joins any more |
| BlockAllocator.HeapBlocks.Allochblk | atomix/bdwgc/allchblk.c:676-731 | the result is a block of free memory with the requested header, all other allocated blocks are as before, and the bytes freed, dropped and granted balance; it is a free block of exactly the right size or else cut from a list that may be split, after no block left of the right size or on a list before would do (`Sourced`); memory that may hold pointers is not black-listed, but for a very large request; 0 means, for each policy, that no block of the right size, and no block of a list that may be split, is any good: all others are too small or have every place black-listed |
| BlockAllocator.HeapBlocks.AllochblkNth | atomix/bdwgc/allchblk.c:741-925 | the same for one list: what is granted is inside a block of that list, which is not split unless it may be; 0 only if no block on it is any good |
| BlockAllocator.HeapBlocks.Examine | atomix/bdwgc/allchblk.c:752-885 | the verdict on one block: passed over as `next is better` exactly if the next one is smaller, large enough and not black-listed; taken where it fits, at the first place that is not black-listed, or at its start if black lists do not matter; otherwise skipped, or for one black-listed block perhaps dropped, only if hopeless |
| BlockAllocator.HeapBlocks.TakeAt | atomix/bdwgc/allchblk.c:796-925 | allocation inside a free block: exactly the requested cells leave the free memory |
| BlockAllocator.HeapBlocks.GrantAt | atomix/bdwgc/allchblk.c:796-925 | the same after blocks were dropped |
| BlockAllocator.HeapBlocks.DropSome | atomix/bdwgc/allchblk.c:833-879 | exactly every fourth completely black-listed block is dropped; the search goes on where it was |
| BlockAllocator.HeapBlocks.PassBlock | atomix/bdwgc/allchblk.c:752-879 | going on after a block that is not taken loses no block of the list, even when blocks before the next one were dropped; the search starts again exactly if the first block of the list was dropped; nothing changes when leaks are looked for |
| BlockAllocator.HeapBlocks.DropBlock | atomix/bdwgc/allchblk.c:847-871 | a dropped block becomes one-block pointer-free allocations, and leaves lists, counters and free memory |
| BlockAllocator.HeapBlocks.Freehblk | atomix/bdwgc/allchblk.c:934-993 | fails exactly on a double free or an oversized block; otherwise the block and its cells become free, free neighbours are merged on both sides unless the size would overflow, and the whole invariant is restored |
| BlockAllocator.HeapBlocks.BeginFreeing | atomix/bdwgc/allchblk.c:934-963 | forwarding counts are removed and the free block that ends at this one is found |
| BlockAllocator.HeapBlocks.CoalesceNext | atomix/bdwgc/allchblk.c:964-971 | a free successor is merged, unless the size would overflow |
| BlockAllocator.HeapBlocks.CoalescePrev | atomix/bdwgc/allchblk.c:972-986 | a free predecessor is merged, unless the size would overflow |
| BlockAllocator.HeapBlocks.GetBlockEndingAt | atomix/bdwgc/allchblk.c:330-351 | exactly the block that ends at h, if there is one |
| BlockAllocator.HeapBlocks.FreeBlockEndingAt | atomix/bdwgc/allchblk.c:354-366 | that block if it is free |
| BlockAllocator.HeapBlocks.SplitBlock | atomix/bdwgc/allchblk.c:631-660 | the front part keeps its place on the list, the rest is a new free block on the same list, still tiled and counted |
| BlockAllocator.HeapBlocks.GetFirstPart | atomix/bdwgc/allchblk.c:590-615 | the first bytes of a free block leave its list and the remainder goes to the right one |
| BlockAllocator.HeapBlocks.RemoveFromFlAt | atomix/bdwgc/allchblk.c:300-320 | the links spell out the list without that block; byte count reduced |
| BlockAllocator.HeapBlocks.AddToFl | atomix/bdwgc/allchblk.c:370-399 | the block is first on the list for its size |
| BlockAllocator.HeapBlocks.InstallCounts | atomix/bdwgc/headers.c:279-297 | every interior slot gets the jump min(distance, MAX_JUMP) |
| BlockAllocator.HeapBlocks.RemoveCounts | atomix/bdwgc/headers.c:309-325 | every interior slot becomes nil |
| BlockAllocator.HeapBlocks.EnoughLargeBytesLeft | atomix/bdwgc/allchblk.c:70-81 | the last list from which on the larger ones hold enough |
| BlockAllocator.HeapBlocks.Clip | atomix/bdwgc/alloc.c:1398-1410 | exactly the usable part of the section: not at address 0 and not wrapping around |
| BlockAllocator.HeapBlocks.AddSection | atomix/bdwgc/alloc.c:1411-1437 | a new section becomes one free block merged with its neighbours |
| BlockAllocator.HeapBlocks.EnterSection | atomix/bdwgc/alloc.c:1431-1435 | the section is recorded and gets a header that does not look free |
| BlockAllocator.HeapBlocks.AddToHeap | atomix/bdwgc/alloc.c:1353-1437 | the free memory grows by exactly the usable part of the new memory, GC_heapsize with it |
| BlockAllocator.HeapBlocks.constructor | atomix/bdwgc/allchblk.c:28-60 | the empty heap satisfies the invariant |
| HeapCount.UsedPlusFree | atomix/bdwgc/checksums.c:124-138 | sizes of allocated blocks plus GC_large_free_bytes make up GC_heapsize |
| HeapSteps.TakeKeepsSound | atomix/bdwgc/allchblk.c:590-615 | allocating the front of a free block keeps tiling, index, lists and counters in agreement |
| HeapSteps.SplitKeepsSound | atomix/bdwgc/allchblk.c:631-660 | after a split only the new block may be on the wrong list and behind a free block |
| FreeSteps.SoundIsFreeable | atomix/bdwgc/allchblk.c:934-963 | any allocated block of a sound heap may be freed |
| FreeSteps.JoinNext | atomix/bdwgc/allchblk.c:964-971 | merging with the successor keeps tiling, index and lists |
| FreeSteps.JoinPrev | atomix/bdwgc/allchblk.c:972-986 | merging with the predecessor leaves no free neighbours |
| FreeSteps.EndFree | atomix/bdwgc/allchblk.c:991-992 | putting the merged block on its list restores the invariant |
| GrowSteps.DropKeepsSound | atomix/bdwgc/allchblk.c:847-871 | dropping a block keeps the invariant |
| GrowSteps.GrowKeepsFreeable | atomix/bdwgc/alloc.c:1431-1436 | a new section is a freeable block beside an otherwise unchanged heap |
| SearchSteps.NothingLeft | atomix/bdwgc/allchblk.c:692-730 | exact lists below UNIQUE_THRESHOLD and monotone indexing: after the exact match and the lists up to some index were searched, all free blocks of the right size, and all on those lists, have been |
| SearchSteps.AllSearched | atomix/bdwgc/allchblk.c:698-731 | with the limit for splitting that GC_allochblk computes: whatever was dropped since, no block of the right size or of a list that may still be split is any good |
| SearchSteps.SourcedLate | atomix/bdwgc/allchblk.c:698-731 | what is granted after the exact match failed comes from a list up to that limit, and nothing left over of the right size or on a list before would have done |
| SearchSteps.LimitHolds | atomix/bdwgc/allchblk.c:66-81 | dropping blocks can only lower the limit |
| SearchSteps.TooSmall | atomix/bdwgc/allchblk.c:752-760 | without black lists only too small blocks are no good |
| SearchSteps.NoBlackLists | atomix/bdwgc/allchblk.c:780-782 | for uncollectable and small pointer-free blocks only the size counts |
| SearchSteps.OneBlockOnly | atomix/bdwgc/allchblk.c:780-879 | blocks are dropped only when one block is wanted that may hold pointers |
| HeapClients.GrantServesObjects | atomix/bdwgc/allchblk.c:676-731 | the block that GC_allochblk grants overlaps no block that objects live in, as GC_new_hblk and GC_alloc_large need it |
| HeapClients.DropsServeObjects | atomix/bdwgc/allchblk.c:847-871 | dropping black-listed blocks leaves all blocks with objects backed by the heap |
| HeapClients.FreeServesObjects | atomix/bdwgc/malloc.c:638-649 | freeing a block leaves all others backed by the heap |
| HeapClients.HeaderDescribed | atomix/bdwgc/headers.c:263-276 | the index describes the heap again after a header was installed |
| HeapClients.RemovalDescribed | atomix/bdwgc/headers.c:300-306 | after one was removed |
| HeapClients.CountsDescribed | atomix/bdwgc/headers.c:279-297 | after forwarding counts were installed |
| HeapClients.ClearedDescribed | atomix/bdwgc/headers.c:309-325 | after they were removed, or if they were never there |
| FreeLists.FlIndexMonotone | atomix/bdwgc/allchblk.c:84-91 | larger blocks are on later lists |
| FreeLists.ListSizes | atomix/bdwgc/allchblk.c:84-91 | which sizes each free list holds |
| Headers.BlockIndex.GetIndex | atomix/bdwgc/headers.c:208-258 | a bottom index is spliced into both linked orders, which stay sorted without repeated keys; no slot changes its meaning |
| Headers.BlockIndex.InstallHeader | atomix/bdwgc/headers.c:263-276 | exactly one slot gets the header |
| Headers.BlockIndex.InstallCounts | atomix/bdwgc/headers.c:279-297 | exactly the interior slots get their jumps, over any number of bottom indices, or nothing changes when memory runs out |
| Headers.BlockIndex.RemoveHeader | atomix/bdwgc/headers.c:300-306 | exactly one slot becomes nil |
| Headers.BlockIndex.RemoveCounts | atomix/bdwgc/headers.c:309-325 | exactly the interior slots become nil, if counts were installed |
| Headers.BlockIndex.ApplyToAllBlocks | atomix/bdwgc/headers.c:330-354 | the function is called exactly once on each allocated block and on nothing else, however many bottom indices a block spans |
| Headers.BlockIndex.NextBlock | atomix/bdwgc/headers.c:356-390 | the least eligible block start at or above h, 0 exactly if there is none |
| Headers.BlockIndex.PrevBlock | atomix/bdwgc/headers.c:392-422 | the greatest block start at or below h |
| IndexSteps.Splice | atomix/bdwgc/headers.c:240-255 | splicing keeps both linked orders equal to one sorted sequence |
| IndexSteps.JumpSkips | atomix/bdwgc/headers.c:330-354 | following a jump never passes a block start |
| IndexSteps.StepsMeetAll | atomix/bdwgc/headers.c:279-297 | stepping by BOTTOM_SZ meets every bottom index of the range |
| SmallObjects.SmallHeap.BuildFlClear2 | atomix/bdwgc/new_hblk.c:30-47 | the same memory as the general loop builds for two cleared words |
| SmallObjects.SmallHeap.BuildFlClear4 | atomix/bdwgc/new_hblk.c:50-67 | the same for four cleared words |
| SmallObjects.SmallHeap.BuildFl2 | atomix/bdwgc/new_hblk.c:70-83 | the same for two words, not cleared |
| SmallObjects.SmallHeap.BuildFl4 | atomix/bdwgc/new_hblk.c:86-100 | the same for four words, not cleared |
| SmallObjects.SmallHeap.BuildFlAny | atomix/bdwgc/new_hblk.c:137-165 | every object that fits is linked below the next, the rest is cleared or kept, and the last one that fits is returned |
| SmallObjects.SmallHeap.BuildFl | atomix/bdwgc/new_hblk.c:109-165 | all variants build the list that the general loop builds |
| SmallObjects.SmallHeap.NewHblk | atomix/bdwgc/new_hblk.c:171-192 | every object of the new block is on the free list, and the block is the only new one; client objects and other lists are untouched; no object is lost |
| SmallObjects.SmallHeap.AllocObj | atomix/bdwgc/alloc.c:1758-1812 | ends with the head of the list, and with NULL exactly if no attempt brings a dead object or a block; takes nothing from the client but what an attempt finds dead, touches no other list, and nothing at all if the list was not empty; no object is lost |
| SmallObjects.SmallHeap.GenericMallocInner | atomix/bdwgc/malloc.c:159-210 | a small request gets the first object of its class if there is one, and NULL exactly if there is none and no attempt brings any; a large one gets NULL exactly if there is no block; the object is not one that the client still holds, is large enough, of the right kind and cleared if the kind asks for it; every other live object keeps size and contents, other lists are untouched, and no object is lost |
| SmallObjects.SmallHeap.SizeClass | atomix/bdwgc/malloc.c:166-188 | the size class of the map, which is large enough; the map is extended only if the entry is missing |
| SmallObjects.SmallHeap.AllocLarge | atomix/bdwgc/malloc.c:37-101 | the block that is to be had, with no more memory blocks than needed, cleared if asked for, apart from everything else; NULL exactly if there is none |
| SmallObjects.SmallHeap.Free | atomix/bdwgc/malloc.c:582-650 | exactly p leaves the client: a small object to the front of the list of its block, a large one as a whole block; no other list changes and no object is lost; NULL does nothing |
| StoreSteps.NothingOverlaps | atomix/bdwgc/malloc.c:159-210 | any two objects that are handed out or free are disjoint in memory |
| StoreSteps.FreedLosesNothing | atomix/bdwgc/malloc.c:637-649 | freeing such a block loses no object |
| StoreSteps.LargeLosesNothing | atomix/bdwgc/malloc.c:37-101 | a block of one large object loses no object |
| StoreSteps.NewLosesNothing | atomix/bdwgc/new_hblk.c:171-192 | a new block of small objects loses no object |
| StoreSteps.PushLosesNothing | atomix/bdwgc/malloc.c:630-636 | putting an object back loses no object |
| StoreSteps.PopLosesNothing | atomix/bdwgc/malloc.c:198-199 | handing out the first object of a list loses no object |
| StoreSteps.DownList | atomix/bdwgc/new_hblk.c:137-165 | the links built in a block spell out its objects from the last down, followed by the old list |
| StoreSteps.DownHas | atomix/bdwgc/new_hblk.c:137-165 | that list has exactly the objects that fit, none twice |
| StoreSteps.PopKeepsOk | atomix/bdwgc/malloc.c:198-200 | taking the first object keeps all lists acyclic, of matching size and kind, and disjoint from client objects |
| StoreSteps.PushKeepsOk | atomix/bdwgc/malloc.c:622-637 | so does giving an object back |
| StoreSteps.NewKeepsOk | atomix/bdwgc/new_hblk.c:171-192 | so does a new block |
| StoreSteps.LargeKeepsOk | atomix/bdwgc/malloc.c:37-83 | so does a large object |
| StoreSteps.FreeLargeKeepsOk | atomix/bdwgc/malloc.c:638-649 | so does freeing one |
| SmallSteps.ObjectsDisjoint | atomix/bdwgc/malloc.c:159-210 | different objects of blocks that do not overlap do not overlap |
| SizeClasses.SizeMap.Extend | atomix/bdwgc/malloc.c:106-154 | the whole map afterwards: filled from the first missing entry on with the largest size that has as many objects per block as the size chosen (`FilledIn`); entries outside are unchanged and all of them still promise no more than they hold |
| SizeClasses.SizeMap.Choose | atomix/bdwgc/malloc.c:106-141 | the first missing entry, and an even size for it: the rounded-up request, or an eighth more than that entry needs if the smaller entry is there and that is more |
| SizeClasses.StretchKeepsCount | atomix/bdwgc/malloc.c:143-146 | the final even size holds as many objects per block as the one before it |
| SizeClasses.StretchIsLargest | atomix/bdwgc/malloc.c:143-146 | no larger even size does |
| SizeClasses.NotTiny | atomix/bdwgc/malloc.c:106-118 | for requests of seven granules or more the size to preserve is close enough |
| FreeListMarks.MarkBits.SetFlMarks | atomix/bdwgc/alloc.c:982-1010 | exactly the objects of the list become marked, and hb_n_marks still counts the marked objects of each block |
| FreeListMarks.MarkBits.ClearFlMarks | atomix/bdwgc/alloc.c:1059-1097 | exactly they become unmarked; the counts are exact, except that with parallel marking a count ends at 1 for exactly the blocks that had marks, all of them on objects of the list |
| ChainTable.Table.Register | atomix/bdwgc/finalize.c:161-227 | insert or update of one binding, or no change with the right status; table growth and the new node may fail independently; the table grows exactly when it is missing or has more entries than chains, and need not be spared |
| ChainTable.Table.Unregister | atomix/bdwgc/finalize.c:245-273 | removes the binding; found exactly if there was one |
| ChainTable.Table.Move | atomix/bdwgc/finalize.c:511-562 | renames one key; not found and duplicate exactly when they should be |
| ChainTable.Table.Grow | atomix/bdwgc/finalize.c:94-149 | no binding changes; the table is twice as large unless memory is short or a quarter of the entries of a large table is free |
| ChainTable.Table.Rehash | atomix/bdwgc/finalize.c:133-145 | each chain moves to the larger table binding by binding |
| ChainTable.Table.Find | atomix/bdwgc/finalize.c:181-189 | found exactly if the key is bound |
| ChainTable.Table.Push | atomix/bdwgc/finalize.c:218-225 | one new binding, one more entry |
| ChainTable.Table.DeleteAt | atomix/bdwgc/finalize.c:245-273 | one binding and one entry less, other chains untouched |
| ChainTable.Table.EntriesCountKeys | atomix/bdwgc/finalize.c:94-149 | `entries` is the number of keys |
| Finalization.Finalizers.Finalize | atomix/bdwgc/finalize.c:972-1138 | a short link is cleared exactly if its object was unmarked before, a long link exactly if it is unmarked at the end; links in unmarked objects go; finalizers are conserved and exactly the right ones enqueued, from any table (`Moved`, `RightNews`); what is marked in addition is on the queue, overflowed, or is reached from an unmarked registered object; in Java mode nothing that stays on the queue reaches an object that is to be finalized only when unreachable; in Java mode, or with only ordered finalizers, the marks end closed under pointers and another collection may follow; the table stays intact exactly if it has no key in common with the entries that come back from the queue |
| Finalization.Finalizers.FinalizeObjects | atomix/bdwgc/finalize.c:998-1114 | the part between the links: what is enqueued, revived and marked; a key is enqueued exactly if it is registered, unmarked, not led to by what the own mark procedure of an unmarked registered object pushes, and its own one did not overflow the mark stack; not in Java mode the marks at the end are exactly those, what was led to, and what is enqueued |
| Finalization.Finalizers.MakeDisappear | atomix/bdwgc/finalize.c:919-967 | exactly the links that are to go are cleared and leave the table |
| Finalization.Finalizers.ServeAll | atomix/bdwgc/finalize.c:996-1011 | every registered unmarked object has its mark procedure's closure marked; nothing else is marked but objects whose own procedure overflowed; each of those reaches as many unmarked objects as the stack has entries |
| Finalization.Finalizers.EnqueueAll | atomix/bdwgc/finalize.c:1014-1059 | exactly the entries of still unmarked objects go from table to queue |
| Finalization.Finalizers.MarkQueue | atomix/bdwgc/finalize.c:1061-1076 | every queued object is marked with its closure, except those to be finalized when unreachable, and nothing else is but what the table explains |
| Finalization.Finalizers.Revive | atomix/bdwgc/finalize.c:1078-1114 | marked finalize-when-unreachable entries go back to the table; those that stay were unmarked; nothing is marked but their objects |
| Finalization.Finalizers.PushField | atomix/bdwgc/private/gc_pmark.h:263-360 | PUSH_CONTENTS on the bounded stack: nothing is lost unless a push met a full stack, and then at least so many unmarked objects are reached |
| Finalization.Finalizers.Drain | atomix/bdwgc/mark.c:516-778 | marking until the stack is empty; certain to overflow if the object points to more unmarked objects with fields than the stack has entries |
| Finalization.Finalizers.Rescan | atomix/bdwgc/private/gc_pmark.h:440-443 | after an overflow everything reached from marked objects is marked; the stack may be doubled |
| Finalization.Finalizers.MarkFo | atomix/bdwgc/private/gc_pmark.h:436-445 | what a mark procedure pushes is marked with its closure, closed or not as the marks were before, and nothing else: nothing at all for a finalizer without order, the object itself only if what is pushed leads to it or its procedure overflowed, which needs as many unmarked objects as the stack has entries |
| Finalization.Finalizers.RegisterFinalizer | atomix/bdwgc/finalize.c:667-801 | insert, replace or remove, with the old function and data handed back; table growth and the new node may fail independently; a state that GC_finalize may start from stays one |
| Finalization.Finalizers.EnqueueAllFinalizers | atomix/bdwgc/finalize.c:1143-1180 | the whole table goes to the queue, each object marked with all it points to, what is newly marked is closed under pointers and comes from these objects and what was marked, and GC_fo_entries is 0 |
| FinalizeSteps.ExactlyFinalizable | atomix/bdwgc/finalize.c:993-1059 | a registered object is unmarked after the closure step exactly if no registered unmarked object, itself included, reaches it and its own mark procedure did not overflow |
| FinalizeSteps.ServedExactly | atomix/bdwgc/finalize.c:990-1012 | marking from the table marks exactly what the mark procedures of unmarked objects lead to, and objects whose own one overflowed |
| FinalizeSteps.ExactNews | atomix/bdwgc/gc.h:1112-1123 | if all mark procedures follow all pointers, as with GC_register_finalizer: an object is enqueued if and only if it is finalizable and its own mark procedure did not overflow the mark stack |
| FinalizeSteps.UnclaimedNews | atomix/bdwgc/finalize.c:990-1059 | for every table: exactly the registered unmarked objects are enqueued that no mark procedure of an unmarked registered object leads to and whose own one did not overflow |
| FinalizeSteps.NoOrderNews | atomix/bdwgc/finalize.c:638-641 | without order nothing waits: if all objects are registered by GC_register_finalizer_no_order, all unmarked ones are enqueued |
| FinalizeSteps.ReadyCloses | atomix/bdwgc/finalize.c:1061-1113 | in Java mode: an object that is to be finalized only when unreachable is not reached by anything that stays on the queue |
| FinalizeSteps.EnoughStack | atomix/bdwgc/gc.h:1112-1123 | for an object that reaches fewer unmarked objects than the stack has entries: if and only if it is finalizable |
| Finalization.WideIsKeptBack | atomix/bdwgc/gc.h:1112-1123 | a heap in which a finalizable object is not enqueued: nine objects with fields behind it and a stack of eight entries |
| FinalizeSteps.CyclesAreNot | atomix/bdwgc/gc.h:1118-1121 | with ordered finalizers, what an unmarked registered object reaches by one or more pointers is never enqueued: nothing on a cycle, nothing behind another object; an object registered to ignore itself may reach itself |
| FinalizeSteps.OrderedClosed | atomix/bdwgc/finalize.c:993-1059 | with ordered finalizers only, the marks are closed after enqueuing even outside Java mode |
| FinalizeSteps.Conserved | atomix/bdwgc/finalize.c:1014-1114 | entries in the table plus entries in the queue are the same collection as before; in Java mode every entry that was queued before and runs only when unreachable goes back to the table |
| FinalizeSteps.IntactAfter | atomix/bdwgc/finalize.c:1078-1114 | the table keeps its keys apart if and only if it has none in common with the entries that come back to it |
| Finalization.QueuedAndRegistered | atomix/bdwgc/finalize.c:1078-1114 | registered, enqueued by a collection and registered again before its finalize-when-unreachable entry ran: the next GC_finalize puts the object into the table twice |
| FinalizeSteps.LongImpliesShort | atomix/bdwgc/finalize.c:919-967 | a cleared long link implies that every short link to the object was cleared |
| Exclusions.ExclusionTable.NextExclusion | atomix/bdwgc/mark_rts.c:545-564 | binary search finds the first range that ends above the address, or none exactly if there is none |
| Exclusions.ExclusionTable.ExcludeInner | atomix/bdwgc/mark_rts.c:568-606 | refuses exactly overlapping ranges; otherwise excludes exactly the new range more, sorted and disjoint; full exactly when it has to be |
| Exclusions.ExclusionTable.Exclude | atomix/bdwgc/mark_rts.c:608-623 | the addresses excluded grow by exactly the machine words that the range has a part of, with the wrap-around case; an overlap is reported exactly if one of them is excluded already |
| Exclusions.ExclusionTable.PushWithExclusions | atomix/bdwgc/mark_rts.c:635-651 | exactly [bottom, top) minus the exclusions is pushed, as disjoint non-empty ascending ranges |
| RootSteps.OneCheckIsEnough | atomix/bdwgc/mark_rts.c:581-585 | the check that the source calls incomplete finds every overlap of a sorted table |
| RootSteps.Inserted | atomix/bdwgc/mark_rts.c:593-605 | inserting keeps the table sorted and adds exactly the range |
| RootSteps.Extended | atomix/bdwgc/mark_rts.c:586-590 | so does extending a range backwards |
| StaticRoots.RootSets.Present | atomix/bdwgc/mark_rts.c:126-136 | found exactly if a root starts there |
| StaticRoots.RootSets.Add | atomix/bdwgc/mark_rts.c:167-270 | the words covered grow by exactly the new range; permanence is kept and given only where asked for or to the rest of a root with the same start; a new entry is made only at the end, and not for a start that is taken |
| StaticRoots.RootSets.AddRoots | atomix/bdwgc/mark_rts.c:167-178 | the addresses covered grow by exactly those machine words that lie inside the bounds as a whole; they are permanent if asked for; nothing for an empty range |
| StaticRoots.RootSets.RemoveAt | atomix/bdwgc/mark_rts.c:293-306 | the last root takes the free place and the byte count follows |
| StaticRoots.RootSets.RebuildIndex | atomix/bdwgc/mark_rts.c:309-315 | the index has every root in its chain again |
| StaticRoots.RootSets.RemoveTmp | atomix/bdwgc/mark_rts.c:321-339 | exactly the temporary roots leave |
| StaticRoots.RootSets.Remove | atomix/bdwgc/mark_rts.c:359-378 | exactly the roots inside [b, e) leave |
| BlackLists.BlackList.IsBlackListed | atomix/bdwgc/blacklst.c:240-269 | the loop that skips empty words finds the first stack-listed block among those that the length fills; 0 exactly if there is none and h itself is not listed |
| BlackSteps.PlausibleIsRight | atomix/bdwgc/blacklst.c:232-269 | 0 exactly if (h, len) is not black-listed; otherwise a later block such that all before it are black-listed too |
| BlackSteps.ServesAllocator | atomix/bdwgc/blacklst.c:232-269 | this is what the block search relies on |
| BlackLists.BlackList.Promote | atomix/bdwgc/blacklst.c:137-168 | the new lists become the old ones, the new ones are empty (or the same ones, if interior pointers count everywhere), and the spacing follows the count |
| BlackLists.BlackList.Unpromote | atomix/bdwgc/blacklst.c:170-176 | the new lists are copies of the old ones |
| BlackLists.BlackList.NumberListed | atomix/bdwgc/blacklst.c:274-286 | the number of stack-listed blocks in a range, by the old list |
| BlackLists.BlackList.TotalListed | atomix/bdwgc/blacklst.c:289-301 | the same over the whole heap, in bytes |
| BlackLists.BlackList.AddStack | atomix/bdwgc/blacklst.c:215-230 | one bit is set, if the block has no header or was listed before |
| BlackSteps.PromotedLists | atomix/bdwgc/blacklst.c:137-168 | after promotion exactly what the new lists held is listed |
| BlackSteps.UnpromotedLists | atomix/bdwgc/blacklst.c:170-176 | after unpromotion exactly what the old lists held is listed |
| BlackSteps.WithBitSets | atomix/bdwgc/blacklst.c:215-230 | setting a bit lists exactly the blocks with that hash more |

## Left out

- Incremental and generational collection: dirty bits, `GC_push_selected`, MS_PUSH_RESCUERS and the mutator side.
- `GC_push_marked1`, `GC_push_marked2` and `GC_push_marked4`: faster forms of `GC_push_marked` for tiny objects.
- Mark procedures and per-object descriptors (GC_DS_PROC, GC_DS_PER_OBJECT), client hooks, disclaim.
- The header cache, prefetching, and WRAP_MARK_SOME recovery.
- ParallelMark.ParallelMarkIsSafe: says nothing about fairness or the time marking takes, only that it neither loses work nor ends early; wake-ups and the tests that decide when to share are free choices, so every timing is covered.
- Marker.Marker.MarkAll: asks that no block that may hold pointers has more objects than the stack has entries at the start; otherwise it depends on the heap whether a rescan meets more marked objects of that block than fit (`MarkOften` says what happens then), and `MarkSome` still keeps the invariant. Between three quarters of the first stack and the whole of the last one it depends on the heap whether the static roots find room.
- ParallelMarker.MarkInRounds: does not say that a collection with parallel marking ends: returning entries to a full stack leads to a rescan without a newly marked object, so that the measure of `MarkAll` does not bound the number of rescans.
- Marker.Marker.PushNextMarked: the scan pointer is always a block end, so that the header lookup and `GC_next_block` are one search over the blocks in address order; `Headers.BlockIndex.NextBlock` proves that search on the index.
- Descriptor lengths that are no multiple of ALIGNMENT.
- Unmapping (USE_MUNMAP): all free blocks are mapped.
- BlockAllocator.HeapBlocks.Allochblk: headers and forwarding counts can always be had, so the leak that the source notes on failure is not modelled; running out of memory is modelled in the index (`Headers`). Requests whose size reaches the sign bit are refused first.
- BlockAllocator.HeapBlocks.TakeAt: the same for the header of the block it splits off.
- BlockAllocator.HeapBlocks.GetFirstPart: the same for the header of the remainder.
- BlockAllocator.HeapBlocks.InstallCounts: the same for the bottom indices; `Headers.BlockIndex.InstallCounts` has the failure.
- BlockAllocator.HeapBlocks.EnterSection: GC_heapsize is raised before the section is freed rather than after it; nothing reads it in between.
- The kind in the header of a free block, which nobody reads, is set to PTRFREE.
- Allocation statistics other than free, dropped and total heap bytes; timing and collection triggers; printing and debugging.
- Sweeping, except by contract: `Reclaim` gives back any set of dead small objects. Empty blocks are not returned to the block allocator by it.
- `GC_init_size_map`: that tiny sizes are filled in is a precondition of `SizeClass`.
- SmallObjects.SmallHeap.AllocObj: `GC_collect_or_expand` succeeds a bounded number of times; what each attempt finds dead, and whether there is a block then, are parameters.
- SmallObjects.SmallHeap.AllocLarge: the block comes from any unused place; that a block granted by `GC_allochblk` is one is `HeapClients.GrantServesObjects`.
- SmallObjects.SmallHeap.NewHblk: likewise; and the mark bits of a new uncollectable block, which `GC_set_hdr_marks` sets, are not part of the small-object state.
- Toggle references, finalizer notifiers and invocation, out-of-memory callbacks, a collection forced by `GC_grow_table`, leak-finding mode.
- ChainTable.Table.Register: the second attempt through an out-of-memory callback, with the lock released in between.
- ChainTable.Table.Grow: the collection that a large table may force first; whether it makes growing unnecessary is decided by the number of entries alone.
- Finalization.Finalizers.RegisterFinalizer: the second attempt through an out-of-memory callback.
- Finalization.Finalizers.MarkFo: marks as the serial build does; with parallel marking long ranges may be split further and take more stack. Roots, which a rescan pushes again, are marked already.
- Closure of the marks for no-order finalizers outside Java mode: it does not hold, since the null mark procedure marks nothing below the object.
- The Windows branch of `GC_add_roots_inner`, `GC_remove_roots_subregion`, dynamic libraries.
- `GC_add_to_black_list_normal`, and the wrap-around of a black-list query past the end of the address space.
- Thread creation, stopping the world, foreign calls, the language runtime in `atomix/core`.
