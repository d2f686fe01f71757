# Verified models of QEMU's machine core

This project models the parts of QEMU 2.6 that keep the emulated machine consistent while everything
else changes around it, and proves what they promise. Each component is one Dafny module (two share a
file); nothing outside this directory is needed.

| file | component |
|---|---|
| `PhysPageMap.dfy`, `AddressSpaceDispatch.dfy` | the radix tree of physical pages, its compaction, subpages, and address lookup with the cached section |
| `SoftTlb.dfy`, `DirtyTracking.dfy` | the software TLB of each virtual CPU, page flushes with large pages, and dirty tracking across all CPUs |
| `RamList.dfy` | the dirty bitmaps and the placement of RAM blocks |
| `AioNotify.dfy`, `AioWalks.dfy` | the wake-up protocol of the event loop, and list walks under re-entrant callbacks |
| `FlatFile.dfy`, `PhysPages.dfy`, `KdumpBitmap.dfy`, `KdumpPages.dfy`, `ElfDump.dfy` | both forms of the guest memory dump, read back from the bytes written |
| `BlockGraph.dfy`, `BlockCommit.dfy` | backing chains with reference counts, and committing an overlay |
| `Icount.dfy` | the instruction budget and the clock it drives |
| `Arithmetic.dfy`, `Options.dfy`, `Runs.dfy` | shared arithmetic, the optional value, and runs of a state machine |

State that the source updates in place is a class whose methods update fields, with the loops of the
source; every such method is proved against a specification on values. Components that live for a long
time have a driver (`DriveTlb`, `DriveMmu`, `DriveRam`, `DriveBottomHalves`, `DriveHandlers`, `DriveGraph`,
`DriveIcount`): it performs an arbitrary script of operations on a new object and gives the state after each
of them. Its contract says what every operation does to the state before it and what holds of every state,
so it is a theorem about all runs. Computations that end (`RenderAndTranslate`, `DumpGuest`, `DumpElf`,
`CommitImage`) are stated of their whole input and outcome in the same way. The wake-up protocol is a state
machine over single atomic steps of any number of threads, and its theorems are about every state of every run.

## Where the source falls short of a promise

Each of these has a concrete input or run and a statement of exactly when the promise holds.

- `qemu_bh_schedule_idle` never notifies. Called from another thread while the loop sleeps it loses the
  wake-up (`AioNotify.RemoteIdleLosesWakeUp`); with idle scheduling only from the loop's own thread no
  wake-up is ever lost (`AioNotify.NoLostWakeUp`).
- `tlb_reset_dirty_range_all` rounds the range to pages but hands on the length unrounded. It resets every
  entry whose page was cleared if and only if the range touches no more pages than its length needs
  (`DirtyTracking.ResetRightIff`, `DirtyTracking.StraddleMisses`).
- `tlb_set_dirty` matches the virtual page in every MMU mode. Marking an entry is right, whatever else is dirty,
  if and only if the entry maps the RAM page just written (`DirtyTracking.MarkRightIff`). Runs whose fills give
  each virtual page one RAM page per CPU never lose tracking by a store (`DirtyTracking.DriveMmu`); two fills in
  two modes for different RAM and one store do (`DirtyTracking.SetDirtyCrossesModes`).
- `create_header64` computes `offset_page` in 32 bits. The bitmaps end where the page section begins if and
  only if the layout stays below 4 GiB (`KdumpBitmap.LayoutIff`, `KdumpBitmap.LayoutWraps`).
- `bdrv_set_backing_hd` checks nothing. It keeps the graph free of backing cycles if and only if the node is
  not below its new backing node (`BlockGraph.RelinkAcyclicIff`, `BlockGraph.BackingLoop`).

The comment at qemu/exec.c:292-296 says that a lone child is never a leaf when the tree is compacted. A
512-page region that starts on its own boundary, alone in its part of the address space, gives such a child;
the model follows the code, which handles it. The comment at qemu/cputlb.c:342-343 says that a virtual
address has at most one TLB entry; the code does not keep that (a refill leaves the old entry in the victim
table), and nothing here relies on it.

## Model

| member | source | states |
|---|---|---|
| `PhysMap.PhysPageMap.NodeReserve` | qemu/exec.c:185-192 | room for the asked number of nodes, and no growth when there is room already |
| `PhysMap.PhysPageMap.SetLevel` | qemu/exec.c:214-238 | one level of the recursion fills exactly its share of the range, never descends into a leaf, and stays within the allocation bound of its level |
| `PhysMap.PhysPageMap.FillNode` | qemu/exec.c:226-237 | the loop over the slots of a node advances index and count to the end of the node or of the range |
| `PhysMap.PhysPageMap.Set` | qemu/exec.c:240-248 | a flat range update: the pages of the range find the new leaf, every other page finds what it found; at most 2·levels − 1 new nodes |
| `PhysMap.PhysPageMap.Find` | qemu/exec.c:323-334 | the loop computes the recursive walk, on trees with and without skipped levels |
| `PhysMap.PhysPageMap.Compact` | qemu/exec.c:253-301 | every page that had a leaf still finds it; a page that had none finds none or the leaf of some other page, where skipped index bits lead it; an entry stays empty or not; and nothing is left that could be skipped: below the entry no node has a single child, unless the skip would be too long to store |
| `PhysMap.PhysPageMap.CompactAll` | qemu/exec.c:303-310 | the same for a search from the root of the whole tree, and the whole tree is as short as it can be made |
| `PhysMap.NoLoneChild` | qemu/exec.c:253-301 | in a compacted tree of fewer than eight levels every node reached has no slot in use, or at least two |
| `PhysMap.Bypass` | qemu/exec.c:279-300 | replacing an entry by its only child refines it, for a child that is a leaf or a node |
| `MemoryDispatch.CoverCheckIsInterval` | qemu/exec.c:312-321 | the 64-bit wrapping comparison is membership in the section's interval |
| `MemoryDispatch.CompactionKeepsFind` | qemu/exec.c:253-343 | `phys_page_find` gives the same section before and after compaction for every address, also where skipped bits lead down another page's path |
| `MemoryDispatch.SubpageAssertion` | qemu/exec.c:1139-1151 | the assertion of `register_subpage` holds in every state reached by adding disjoint sections |
| `MemoryDispatch.MultipageConsistent` | qemu/exec.c:1170-1180 | after a whole-page piece every address resolves to its section or to unassigned |
| `MemoryDispatch.SubpageConsistent` | qemu/exec.c:1139-1168 | after a part-page piece every address resolves to its section or to unassigned |
| `MemoryDispatch.AddressSpaceDispatch.constructor` | qemu/exec.c:2357-2375 | the empty dispatch with its four dummy sections resolves every address to unassigned |
| `MemoryDispatch.AddressSpaceDispatch.SectionAdd` | qemu/exec.c:1097-1114 | a section number below the page size, or failure where the source asserts |
| `MemoryDispatch.AddressSpaceDispatch.RegisterMultipage` | qemu/exec.c:1170-1180 | enters a run of whole pages; the tree has room for it; fails if and only if no section number is left |
| `MemoryDispatch.AddressSpaceDispatch.NewContainer` | qemu/exec.c:2301-2319 | a new subpage container on an unassigned page changes no lookup and takes one section number |
| `MemoryDispatch.AddressSpaceDispatch.SubpageRegister` | qemu/exec.c:2281-2299 | exactly the named byte range of the container changes |
| `MemoryDispatch.AddressSpaceDispatch.RegisterSubpage` | qemu/exec.c:1139-1168 | enters a piece inside one page, with a new container if and only if the page has none; fails if and only if the one or two numbers this takes are not left |
| `MemoryDispatch.AddressSpaceDispatch.AddHead` | qemu/exec.c:1190-1199 | the unaligned head of a section, or nothing |
| `MemoryDispatch.AddressSpaceDispatch.AddNext` | qemu/exec.c:1200-1212 | each round of the split enters the largest piece the source allows; the branch for an unaligned offset is never taken |
| `MemoryDispatch.AddressSpaceDispatch.MemAdd` | qemu/exec.c:1182-1213 | the pieces entered add up to the section and are its head, its whole pages and its tail; fails if and only if there are fewer section numbers left than those pieces, and containers for part-covered pages without one, take |
| `MemoryDispatch.PlanCosts` | qemu/exec.c:1182-1213 | the numbers taken piece by piece, head, whole pages and tail, are the pieces of the section plus the part-covered pages that have no container |
| `MemoryDispatch.PartialPagesAre` | qemu/exec.c:1139-1168 | the pages that need a container are those of which the section covers some but not all |
| `MemoryDispatch.AddressSpaceDispatch.Commit` | qemu/exec.c:2383-2395 | publishing keeps every answer |
| `MemoryDispatch.AddressSpaceDispatch.LookupRegion` | qemu/exec.c:352-376 | exactly: a resolving lookup equals an uncached search plus subpage resolution, over any mix of lookups; any other gives the cached section if that covers the address and else what the search finds; the cache keeps what it had if that covers the address and else holds the result |
| `MemoryDispatch.AddressSpaceDispatch.PhysPageFind` | qemu/exec.c:323-343 | on the compacted tree the search finds what it found on the tree that was built |
| `MemoryDispatch.AddressSpaceDispatch.TranslateInternal` | qemu/exec.c:379-412 | a resolving call gives region, offset and, for RAM, the least of the asked length and what is left of the head, whole pages or tail that holds the address; any other call gives that for the section the cache or the search gives it, which on a part-covered page may be the container |
| `MemoryDispatch.PieceEndBounds` | qemu/exec.c:407-410 | that length is positive for a positive request and stays inside the section |
| `MemoryDispatch.CachedHit` | qemu/exec.c:358-366 | a hit of the cache is what the search would have found |
| `MemoryDispatch.FirstOnShared` | qemu/exec.c:352-376 | on a part-covered page a lookup that does not resolve gives the container as long as no lookup on that page has resolved |
| `MemoryDispatch.SharedFindsContainer` | qemu/exec.c:1139-1168 | the search stops at a container on every part-covered page |
| `MemoryDispatch.StaysOnPage` | qemu/exec.c:1182-1213 | a piece with an address on a part-covered page lies inside that page and does not cover it |
| `MemoryDispatch.RenderAndTranslate` | qemu/exec.c:1182-1213 | for any disjoint sections and any queries: begin, add all, commit, and every translation is right; a query that does not resolve, on a part-covered page that no query has resolved on before, gives the container; the whole succeeds if and only if four, plus all pieces, plus all part-covered pages, are at most the 4096 section numbers |
| `SoftTlb.MaskIsAlignedBlock` | qemu/cputlb.c:321-340 | masking a page number gives the aligned block that holds it, and exactly the pages of that block share it |
| `SoftTlb.FillServes` | qemu/cputlb.c:375-428 | a new entry serves loads, stores and fetches of its page if and only if the fill grants each; I/O, watched pages and stores to ROM go through callbacks; the rest lands on the host page of the fill; it is not dirty if and only if the page is clean writable RAM |
| `SoftTlb.ContainsIff` | qemu/cputlb.c:321-340 | a fill is for the pages whose numbers agree with its own above the page size |
| `SoftTlb.InRegionIff` | qemu/cputlb.c:145-153 | the region test is membership in an aligned block |
| `SoftTlb.ApplyMeans` | qemu/cputlb.c:126-295 | what a flush, a reset and a mark do to an entry, field by field |
| `SoftTlb.Flush` | qemu/cputlb.c:73-91 | every entry is empty and no region is remembered |
| `SoftTlb.FlushByMmuIdx` | qemu/cputlb.c:93-116 | the listed modes are empty, the others untouched |
| `SoftTlb.EntryFlushed` | qemu/cputlb.c:126-136 | a flushed entry does not match the page, and what is left of it was made by a fill that the flush spares |
| `SoftTlb.LargePageForcesFlush` | qemu/cputlb.c:145-153 | an address inside any large page still held lies in the remembered region |
| `SoftTlb.FlushPage` | qemu/cputlb.c:138-174 | no main or victim entry of any mode matches the page; a page inside the remembered region, and so inside any large page held, empties everything; otherwise the entries that match are emptied and all others stay; the fills still held are given exactly |
| `SoftTlb.FlushPageByMmuIdx` | qemu/cputlb.c:176-222 | the same for the listed modes, the others untouched |
| `SoftTlb.AddLargePage` | qemu/cputlb.c:321-340 | the widening loop ends, at the narrowest common mask of the old region and the new page, and the region covers the new page and all it covered |
| `SoftTlb.WidenedIsSmallest` | qemu/cputlb.c:321-340 | the new region is the smallest aligned block that holds the old region and the new large page |
| `SoftTlb.SetPage` | qemu/cputlb.c:349-428 | the new entry is in its slot and serves exactly what the fill grants, the old one is in the victim slot whose turn it is, the region is widened by a large page, and the invariant holds with the new fill |
| `SoftTlb.VictimTlbHit` | qemu/softmmu_template.h:119-142 | finds the topmost matching victim if there is one and exchanges it with the entry in its slot, and changes nothing else; no entry is lost or made |
| `SoftTlb.FastHitMeans` | qemu/softmmu_template.h:119-142 | loads match the read word, stores the write word and fetches the code word, and none with a flag set |
| `SoftTlb.ResetDirty` | qemu/cputlb.c:268-288 | every entry of both tables is reset if its host page is in the range |
| `SoftTlb.SetDirtyPage` | qemu/cputlb.c:299-317 | the slot of the page in every mode and all victims are marked |
| `SoftTlb.Step` | qemu/cputlb.c:73-428 | each operation does to both tables what it should, leaves exactly the fills it spares or installs, and exactly the region it should; nothing but a fill makes an entry |
| `SoftTlb.DriveTlb` | qemu/cputlb.c:73-428 | any run: every operation does to the TLB before it what it should; afterwards every entry that can match was made by one fill of the run, in its mode, serves what that fill grants and no more, and no later operation flushes any page of that fill, large or small; a flush inside a large page still held leaves both tables empty; the region is that of the run |
| `DirtyTracking.ReachedIff` | qemu/exec.c:974-992 | the reset reaches every cleared page if and only if the range does not straddle |
| `DirtyTracking.StraddleMisses` | qemu/exec.c:974-992 | a range of one page from the middle of a page clears two pages and resets one |
| `DirtyTracking.ResetReaches` | qemu/cputlb.c:244-255 | the wrapping host address comparison is the comparison of page numbers |
| `DirtyTracking.ResetRightIff` | qemu/exec.c:974-992 | the reset is right for every TLB content if and only if the range does not straddle |
| `DirtyTracking.ClearedEntry` | qemu/exec.c:1002-1030 | after a clear, an entry is tracked if and only if the reset reached it |
| `DirtyTracking.MarkRightIff` | qemu/cputlb.c:290-295 | marking an entry is right for every bitmap that has the written page dirty if and only if the entry maps that page |
| `DirtyTracking.SetDirtyTracked` | qemu/cputlb.c:299-317 | marking keeps a whole TLB tracked if and only if, by the bitmaps before the store, every entry it will mark maps the page written or one already dirty for all clients |
| `DirtyTracking.SetDirtyCrossesModes` | qemu/cputlb.c:299-317 | a run of two fills, in two modes, of one virtual page for two clean RAM pages, and one store, after which one entry is untracked |
| `DirtyTracking.AgreeingStore` | qemu/cputlb.c:299-317 | where all fills of a virtual page on a CPU are for one RAM page, every entry a store marks maps the page it writes |
| `DirtyTracking.FilledMaps` | qemu/cputlb.c:375-428 | stores through a new entry reach RAM directly or through the not-dirty handler if and only if the fill is for writable RAM; they reach the RAM page of the target, and bypass the bitmaps if and only if that page is dirty for all clients |
| `DirtyTracking.FilledReads` | qemu/cputlb.c:375-428 | reads through a new entry go to a device, or to the host page of the target |
| `DirtyTracking.FilledTracked` | qemu/cputlb.c:413-427 | a new entry allows direct writes only to a page dirty for all clients |
| `DirtyTracking.SoftMmu.SetPage` | qemu/cputlb.c:349-428 | a fill of one CPU does what it should and keeps tracking on all CPUs |
| `DirtyTracking.SoftMmu.Maintain` | qemu/cputlb.c:73-222 | flushes and victim swaps keep tracking |
| `DirtyTracking.SoftMmu.SetDirty` | qemu/include/exec/ram_addr.h:258-304 | exactly the range is set for the chosen clients, and tracking is kept |
| `DirtyTracking.SoftMmu.TestAndClear` | qemu/exec.c:995-1031 | exactly the range is cleared, the result tells if any page was dirty, and tracking survives if and only if the reset sufficed |
| `DirtyTracking.SoftMmu.ResetAll` | qemu/exec.c:988-991 | every entry of every CPU is reset |
| `DirtyTracking.SoftMmu.NotDirtyWrite` | qemu/exec.c:2039-2068 | a store through a not-dirty entry sets exactly its bits on the RAM page of that entry, marks this CPU alone, and only if the page is then dirty for all; tracking survives if and only if the entries and bitmaps before the store say so |
| `DirtyTracking.DriveMmu` | qemu/exec.c:974-1031 | any run over any number of CPUs: every operation does to the TLBs and bitmaps before it what it should, and dirty tracking holds in every state unless the run comes to a straddling clear, or to a store after fills of one virtual page on one CPU for different RAM; a script without either runs to its end |
| `DirtyBitmap.SetDirtyRange` | qemu/include/exec/ram_addr.h:258-304 | the loop over bitmap blocks is a flat range update |
| `DirtyBitmap.TestAndClear` | qemu/exec.c:995-1025 | the loop clears the flat page range and tells if any of it was dirty |
| `DirtyBitmap.TouchedPages` | qemu/include/exec/ram_addr.h:258-304 | the pages of a range are those that have a byte in it |
| `RamAllocator.NextStartIsFirst` | qemu/exec.c:1359-1367 | the next start is the least block start at or after an end |
| `RamAllocator.PlacedApart` | qemu/exec.c:1358-1372 | a block placed in an adequate gap overlaps none |
| `RamAllocator.FindRamOffset` | qemu/exec.c:1347-1381 | offset 0 for the first block, else the start of the first of the smallest adequate gaps behind an existing block; fails if and only if no gap is adequate |
| `RamAllocator.ComputeLastRamOffset` | qemu/exec.c:1383-1394 | the greatest end of any block |
| `RamAllocator.DirtyMemoryExtend` | qemu/exec.c:1536-1574 | the new size is covered, every old bit is kept, and the bits of new bitmap blocks are clear |
| `RamAllocator.InsertedOk` | qemu/exec.c:1617-1633 | insertion keeps blocks disjoint and sorted by size |
| `RamAllocator.RamList.Add` | qemu/exec.c:1576-1640 | the new block and its place in the list; every bit of every client afterwards: the used pages of the block are dirty, the rest as it was, and clear in new bitmap blocks; failure changes nothing |
| `RamAllocator.RamList.Free` | qemu/exec.c:1775-1789 | removes exactly that block and keeps the invariant |
| `RamAllocator.DriveRam` | qemu/exec.c:1576-1640 | any run: every operation does to blocks and bitmaps what it should, and in every state blocks are disjoint and sorted, and the bitmaps cover every block |
| `AioNotify.InvKept` | qemu/async.c:128-143 | every atomic step of every thread keeps the protocol invariant |
| `AioNotify.InvAlways` | qemu/aio-posix.c:404-482 | the invariant holds in every state of every run, with blocking and non-blocking polls, nested in callbacks or not |
| `AioNotify.NoLostWakeUp` | qemu/async.c:162-189 | while the loop sleeps without timeout and a live bottom half is scheduled, the notifier is set or a thread is bound to set it |
| `AioNotify.PendingDelivers` | qemu/async.c:285-295 | such a thread leaves these steps only by setting the notifier |
| `AioNotify.AcceptClears` | qemu/async.c:297-302 | after the accept step the notifier is clear unless somebody set it since |
| `AioNotify.AcceptQuiets` | qemu/async.c:297-302 | after an accept with no thread past its read of `notify_me`, neither the event nor the flag beside it is left set |
| `AioNotify.CheckLowers` | qemu/async.c:191-215 | from a check to the next prepare, bit 0 of `notify_me` is clear |
| `AioNotify.ScheduleAlone` | qemu/async.c:128-143 | an undisturbed schedule leaves the bottom half scheduled and not idle, and goes on to notify if and only if it was not scheduled |
| `AioNotify.NotifyAlone` | qemu/async.c:285-295 | an undisturbed notify sets the event and the flag beside it if `notify_me` is not zero, and changes nothing else |
| `AioNotify.NeverPastTimer` | qemu/async.c:162-189 | in every state of every run the loop sleeps no longer than until its next timer |
| `AioNotify.ScheduledCutsSleep` | qemu/async.c:162-189 | a bottom half scheduled all through the computation of the timeout keeps the sleep to 10 ms, and to nothing if it is not idle |
| `AioNotify.NothingScheduledSleeps` | qemu/async.c:162-189 | with nothing scheduled all through the computation the loop sleeps until its timer |
| `AioNotify.RunsOncePerArming` | qemu/async.c:70-96 | callbacks run plus cancellations plus a pending one equal the times a bottom half was armed |
| `AioNotify.WalkSettlesAll` | qemu/async.c:70-96 | a walk, whatever its callbacks do, ends with every bottom half that was scheduled and ahead of it run, cancelled or deleted |
| `AioNotify.WalkServesAll` | qemu/async.c:70-96 | from the beginning of a dispatch walk to its end, nested polls included, every bottom half due at the beginning is run, cancelled or deleted; a walk ends only with nothing left to visit |
| `AioNotify.WalkEndFrees` | qemu/async.c:98-117 | the end of an outermost walk frees exactly the deleted, the end of a nested one frees nothing |
| `AioNotify.RunsWhereDue` | qemu/async.c:78-96 | a bottom half runs only where a walk stands on it while it is scheduled and live, and is then neither scheduled nor idle |
| `AioNotify.CancelHolds` | qemu/async.c:146-151 | after a cancel a bottom half does not run until it is armed again |
| `AioNotify.DeletedNeverRuns` | qemu/async.c:153-160 | after its deletion a bottom half never runs |
| `AioNotify.RestAlways` | qemu/async.c:70-96 | what a scan or a walk has still to look at is always the rest of the list |
| `AioNotify.NeverStuck` | qemu/aio-posix.c:404-482 | in every state of every run the loop thread has a step: it never looks at a bottom half that is gone, every sleep can end, and every poll entered can be left |
| `AioNotify.RemoteIdleLosesWakeUp` | qemu/async.c:119-126 | a run in which idle scheduling from another thread leaves the loop asleep |
| `AioWalks.BhContext.New` | qemu/async.c:46-62 | the new bottom half is at the head and no walk in progress meets it |
| `AioWalks.BhContext.Visit` | qemu/async.c:78-96 | one turn of the walk reaches only allocated nodes and calls no deleted one |
| `AioWalks.BhContext.Leave` | qemu/async.c:98-117 | the outermost walk removes exactly the deleted ones and keeps the order of the rest; an inner one removes nothing |
| `AioWalks.BhContext.Unlink` | qemu/async.c:104-108 | the pointer surgery keeps the chain |
| `AioWalks.BhContext.Sweep` | qemu/async.c:100-114 | exactly the deleted nodes are gone |
| `AioWalks.SurvivorsMembers` | qemu/async.c:100-114 | the survivors are the nodes that are not deleted |
| `AioWalks.DriveBottomHalves` | qemu/async.c:70-117 | any nesting of polls and any deletions: every operation does to list, nodes and stack what it should; in every state the links run through the list and every node a walk stands on or goes to is allocated; a callback runs if and only if its bottom half is scheduled and not deleted; each outermost end sweeps exactly the deleted |
| `AioWalks.HandlerContext.Find` | qemu/aio-posix.c:192-203 | the live handler of a file descriptor, if there is one |
| `AioWalks.HandlerContext.SetFdHandler` | qemu/aio-posix.c:205-261 | the live handler of the descriptor goes, at once or by a mark, or gets these callbacks, or is made at the head; so there is one live handler with these callbacks, or none, others are untouched, and no node is freed while somebody walks |
| `AioWalks.HandlerContext.BeginPoll` | qemu/aio-posix.c:425-436 | the poll array holds exactly the live handlers with something to wait for, all allocated |
| `AioWalks.PollableMembers` | qemu/aio-posix.c:425-436 | the poll array has each live handler with a callback once, and no other |
| `AioWalks.HandlerContext.EndPoll` | qemu/aio-posix.c:464-472 | results are stored through exactly the nodes remembered across poll(), all still allocated, and only if poll() reported any |
| `AioWalks.HandlerContext.BeginTurn` | qemu/aio-posix.c:314-322 | a turn notes what poll() reported of what its node waits for, and clears it |
| `AioWalks.HandlerContext.TestRead` | qemu/aio-posix.c:324-334 | the read callback runs if and only if the handler is live and has one, and input, hang-up or an error was reported that it waited for; the write test follows in any case |
| `AioWalks.HandlerContext.TestWrite` | qemu/aio-posix.c:335-340 | the write callback runs if and only if the handler is live and has one, and room for output or an error was reported that it waited for |
| `AioWalks.HandlerContext.EndTurn` | qemu/aio-posix.c:341-349 | the turn has run exactly the callbacks that were due; the walk goes on to the next node, which is allocated; its own node is freed if and only if it is deleted and no other walk is on |
| `AioWalks.DriveHandlers` | qemu/aio-posix.c:296-350 | any nesting: every operation does to list, nodes and stack what it should; in every state each node that a poll result goes to or a turn is on is allocated, a descriptor has one live handler at most, and each turn has run exactly the callbacks that were due |
| `FlatFile.FlatWriter.WriteBuffer` | qemu/dump.c:674-693 | the file then holds the data at the offset and is otherwise as it was; the write fails if and only if as many have succeeded as may |
| `FlatFile.DecodeEncode` | qemu/dump.c:52-72 | numbers in a descriptor read back in either byte order |
| `FlatFile.EncodeByte` | qemu/dump.c:52-72 | byte i of a number is its i-th digit to the base 256, counted from the end the byte order says |
| `PhysPages.PagesIncrease` | qemu/dump.c:1011-1055 | pages come in increasing order |
| `PhysPages.EveryPageListed` | qemu/dump.c:1011-1055 | no page is missed |
| `PhysPages.NextPageIs` | qemu/dump.c:1011-1055 | each call gives the next page of the enumeration with its contents, and ends after the last |
| `KdumpBitmap.PutBitExact` | qemu/dump.c:980-986 | setting or clearing a bit of a byte changes that bit only |
| `KdumpBitmap.SetDumpBitmap` | qemu/dump.c:938-989 | the stream of both bitmaps stays exact while buffers are flushed up to the page's |
| `KdumpBitmap.BuffersNeeded` | qemu/dump.c:1575-1578 | the rounded bitmap length is what reaches the last page |
| `KdumpBitmap.LayoutIff` | qemu/dump.c:898-904 | the second bitmap ends where the page section begins if and only if the layout fits 32 bits |
| `KdumpBitmap.LayoutWraps` | qemu/dump.c:898-904 | with 64 TiB of memory the page section would begin at the bitmaps |
| `KdumpBitmap.WriteDumpBitmap` | qemu/dump.c:1057-1107 | two equal bitmaps of exactly `len_dump_bitmap` bytes whose bit p is set if and only if page p exists; nothing else written; the count of pages |
| `KdumpPages.DataCache.constructor` | qemu/dump.c:1109-1117 | an empty cache at its offset |
| `KdumpPages.DataCache.WriteCache` | qemu/dump.c:1119-1149 | after a sync the file holds the concatenation of all that was handed in, as if unbuffered; nothing is written unless the buffer would overflow or a sync finds something in it |
| `KdumpPages.DescRoundTrip` | qemu/include/sysemu/dump.h:145-150 | a descriptor reads back from its 24 bytes |
| `KdumpPages.DescLayout` | qemu/include/sysemu/dump.h:145-150 | where each byte of offset, size, flags and page flags is |
| `KdumpPages.StoredPlaced` | qemu/dump.c:1261-1317 | the bytes stored for a page decode to it, compressed or plain |
| `KdumpPages.DumpPage` | qemu/dump.c:1240-1330 | one page: its descriptor is appended and leads to bytes that decode to it; a zero page shares the one at the front; any other is stored compressed if and only if that is shorter |
| `KdumpPages.PageReads` | qemu/dump.c:1201-1342 | the k-th descriptor in the finished file leads a reader to page k |
| `KdumpPages.WriteDumpPages` | qemu/dump.c:1186-1342 | the descriptor table ends where the data begins, and every page reads back |
| `KdumpPages.WriteHeaders` | qemu/dump.c:857-894 | the header is at the start, the sub header at the second block and the notes behind it |
| `KdumpPages.NotesEnd` | qemu/dump.c:896-899 | the bitmaps begin at the first block behind the notes |
| `KdumpPages.CreateKdumpVmcore` | qemu/dump.c:1355-1411 | headers, bitmaps and pages together: every page readable, and while the layout fits 32 bits the bitmaps are exact and the headers where they were written |
| `KdumpPages.DumpGuest` | qemu/dump.c:1355-1411 | the same, for headers, both bitmaps and all pages, as a statement about the bytes of a new file; it fails only when all the writes that can succeed have been made |
| `ElfDump.GetOffsetRange` | qemu/dump.c:367-426 | the file at the offset is guest memory for `filesz` bytes, cut short only at the end of what is dumped of the block; not stored if and only if outside memory or filter |
| `ElfDump.DumpCalculateSize` | qemu/dump.c:1465-1485 | the length of the memory stream |
| `ElfDump.StreamHas` | qemu/dump.c:568-619 | the memory stream has every wanted byte of guest memory |
| `ElfDump.StreamOnly` | qemu/dump.c:568-619 | every byte of the stream is a wanted byte of one block, in the place of that byte |
| `ElfDump.DumpedIff` | qemu/dump.c:388-409 | what is dumped of a block is what the filter wants of it |
| `ElfDump.ElfWriter.WriteMemory` | qemu/dump.c:341-364 | pages and rest together are the range; it takes one write per page begun, and fails if and only if fewer can succeed |
| `ElfDump.ElfWriter.GetStartBlock` | qemu/dump.c:1413-1439 | the first block in range and where it starts, or none |
| `ElfDump.ElfWriter.GetNextBlock` | qemu/dump.c:568-593 | the next block in range and where it starts, or none |
| `ElfDump.ElfWriter.DumpBlock` | qemu/dump.c:602-615 | exactly the part of the block that the filter lets through |
| `ElfDump.ElfWriter.DumpIterate` | qemu/dump.c:596-619 | the file grows by the memory stream and the written size by its length; fails if and only if too few writes can succeed |
| `ElfDump.ElfWriter.ElfLoads` | qemu/dump.c:428-463 | one right header per mapping, in order, up to the count that the ELF or section header announces; or a write fails |
| `ElfDump.PreambleSize` | qemu/dump.c:1614-1653 | what is written in front of the memory is as long as the memory offset calculated before, with or without a section header, in 32 and 64 bits |
| `ElfDump.ElfWriter.DumpBegin` | qemu/dump.c:466-566 | everything in front of the memory, in order, with headers that are right for the memory to come |
| `ElfDump.ElfWriter.CreateVmcore` | qemu/dump.c:621-632 | headers and then memory, or a write fails |
| `ElfDump.DumpElf` | qemu/dump.c:621-632 | with or without a filter, headers computed before the memory is written hold of the finished file, which is header, note header, load headers, section header from 65533 mappings on, notes and memory, byte by byte; the first 2^32 − 2 mappings have their headers; the length is the calculated offset and size; and exactly when each of the two errors comes |
| `BlockGraph.NoCycle` | qemu/block.c:2914-2921 | in an acyclic graph no backing walk returns to its start |
| `BlockGraph.ChainContains` | qemu/block.c:2914-2921 | membership in the backing chain; the walk ends |
| `BlockGraph.RelinkAcyclicIff` | qemu/block.c:1226-1278 | a new backing link keeps the graph acyclic if and only if the node is not below the new backing node |
| `BlockGraph.BackingLoop` | qemu/block.c:1226-1278 | a run of two new nodes, each made the backing node of the other: both calls go through, links agree, and the graph has a cycle |
| `BlockGraph.Graph.AttachRoot` | qemu/block.c:1163-1177 | the user's reference becomes a new edge, and nothing else changes |
| `BlockGraph.Graph.DropBacking` | qemu/block.c:1189-1220 | the backing edge and its reference are gone, with exactly the nodes that had their last reference through it; all else as it was |
| `BlockGraph.Graph.AddBacking` | qemu/block.c:1179-1187 | a reference becomes the backing edge |
| `BlockGraph.Graph.SetBacking` | qemu/block.c:1226-1278 | only this backing link changes and exactly the nodes go that had their last reference through the old one, never the new backing node; counts stay edges plus outside references; the graph stays acyclic if and only if the node is not below its new backing node |
| `BlockGraph.Graph.Ref` | qemu/block.c:3379-3382 | one more outside reference |
| `BlockGraph.Graph.Unref` | qemu/block.c:3387-3396 | one outside reference less; if it was the last, the node goes, and down its chain every node that had its last reference from the one above |
| `BlockGraph.Graph.Delete` | qemu/block.c:2353-2368 | a node without references goes with its backing edge, and what hung on that edge alone |
| `BlockGraph.TargetStays` | qemu/block.c:1228-1236 | the reference taken first keeps the new backing node alive while the old edge goes |
| `BlockGraph.NothingLeaks` | qemu/block.c:3384-3396 | with counts right and no node unreferenced, every node is on the backing chain of one that somebody outside uses |
| `BlockGraph.Graph.ChangeParents` | qemu/block.c:2248-2270 | every user of the one node uses the other, with its reference; backing links as they were |
| `BlockGraph.Graph.Append` | qemu/block.c:2304-2321 | the chain of the new node is the new node followed by the old chain of top, whatever ranks show it finite; former users point at it, other chains are unchanged |
| `BlockGraph.Graph.Replace` | qemu/block.c:2323-2351 | users move; a node from outside the chain takes over the backing link, otherwise every chain is unchanged |
| `BlockGraph.DriveGraph` | qemu/block.c:2248-2351 | any run: every operation does to nodes, edges and references what it should; in every state links agree, no backing chain loops, each count is edges plus outside references, and every node is on the backing chain of one that somebody uses |
| `BlockCommit.Commit.IsAllocated` | qemu/block.c:2454-2458 | a run of any positive length with one allocation state |
| `BlockCommit.Commit.CopyRun` | qemu/block.c:2459-2469 | a run reaches the backing image, or exactly the read or the write fails that the faults say; on failure the guest's view is unchanged |
| `BlockCommit.Commit.CopyAll` | qemu/block.c:2454-2470 | all allocated sectors have reached the backing image if and only if every visited run passes; otherwise the error is that of the first that does not, and the guest's view is unchanged |
| `BlockCommit.Commit.MakeEmpty` | qemu/block.c:2472-2478 | what is dropped, exactly; the view is unchanged |
| `BlockCommit.Commit.Run` | qemu/block.c:2393-2498 | goes through if and only if there is a driver and a backing image, no blocker, and reopening, length, truncation, buffer, copy and emptying do not fail, and otherwise returns the error of the first that does; a refused call changes nothing; the guest's view is unchanged in all cases; on success the backing image alone gives it; the backing image is read-only again unless that reopening fails |
| `BlockCommit.StopsOnce` | qemu/block.c:2454-2470 | the copy passes, or it stops at the first visited run whose status, read or write fails, with that one error |
| `BlockCommit.OneOutcome` | qemu/block.c:2393-2498 | no commit has two reasons to fail |
| `BlockCommit.CommitImage` | qemu/block.c:2393-2498 | the same as a statement about any two images and any failures |
| `Icount.RoundIsLeast` | qemu/cpus.c:334-337 | the budget is the least number of instructions that reaches the deadline |
| `Icount.BudgetIsLeast` | qemu/cpus.c:1449-1468 | the budget is the least number of instructions that reaches the next timer, or 2^31 − 1 ns if there is none or it is later |
| `Icount.Timers.BeginSlice` | qemu/cpus.c:1481-1494 | the least budget that reaches the next timer, at most 65535 in the decrementer and the rest in reserve |
| `Icount.Timers.RunBlock` | qemu/include/exec/gen-icount.h:31-49 | a block runs only if the decrementer covers it, and its instructions are counted |
| `Icount.Timers.Expired` | qemu/cpu-exec.c:541-563 | a refill keeps decrementer plus reserve and makes progress; otherwise at most the rest runs |
| `Icount.Timers.EndSlice` | qemu/cpus.c:1499-1507 | the unused budget goes back, the counter is the instructions executed, and the CPU is left without budget and interrupt flag |
| `Icount.SliceBound` | qemu/cpus.c:1449-1468 | a slice ends less than 2^shift ns past the next timer, or 2^31 − 1 ns, and reaches it if nothing was given back |
| `Icount.DriveIcount` | qemu/cpus.c:151-166 | any run on any number of CPUs: every operation does to counter and budgets what it should; in every state the raw counter is the number of instructions executed, and every slice, finished or not, keeps its bound |

## Left out

- IOMMU translation, Xen, KVM, file-backed RAM and the reclamation of old versions under RCU; publication is one atomic step.
- The contents of I/O regions: a region is a name, a kind and whether it is RAM.
- Address arithmetic beyond 64 bits: a section that covers the whole address space has size 2^64, and nothing wraps inside a section.
- `MemoryDispatch`: target pages of 4096 bytes and six levels of 512 entries, the constants of a 64-bit target.
- `RamAllocator`: block sizes and offsets are whole target pages, as rounding to host pages gives them.
- `SoftTlb`: a comparator word is a page number and its three flag bits; a mask is the number of low bits it clears, since page sizes are powers of two. The jump cache and the I/O translation beside an entry are not modelled.
- `DirtyTracking`: translated code is not modelled; whether a store removes the code protection of its page is an input. The RAM address of a store is that of the host page its entry maps, since the I/O translation beside an entry is not modelled.
- `AioNotify`: memory is sequentially consistent; the barriers of the source are what justifies that.
- The epoll path, aio-win32.c, timers and disabled external handlers; a timer's deadline is an input.
- Contents of ELF notes and of dump headers; only their sizes and places matter. In the ELF dump the notes are one write, where the source makes one per CPU. The flat-format start and end markers. A list of 2^32 mappings or more, whose count the source keeps in 32 bits.
- 32-bit headers of the compressed dump: the same layout with other header sizes.
- Compression libraries: any compression that its decompression undoes, or none.
- `BlockGraph.Graph.Unref`: of what closing a node does, the model has the release of the backing node; the `file` child and a driver's own children are not edges here.
- `BlockGraph.Graph.Append`: top has a user or the caller a second reference to the new node; without either the call would delete the node it appends.
- Operation blockers, throttling fields, block backends and driver callbacks in block.c.
- `BlockCommit`: sectors of a grown backing image read as zeros, which is the contract of `bdrv_truncate`.
- Replay mode of the instruction counter and the adaptive shift: the shift is fixed, and so is the bias.
- Migration, the gdb stub, device trees and the user interface, which are clients of these components.
- The replicated log under rdma-paxos: agreement across leader changes is a protocol of its own, with no code in common with what is modelled here.
