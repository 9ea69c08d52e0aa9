# Merlon: a verified model of the kernel's core

Merlon is a small x86 kernel. This project models its memory managers, its blocking
synchronisation, its interrupt levels and the containers under them, and proves what they
promise. `dafny verify dfyconfig.toml` checks everything.

A `Panic` or a failed `assert` of the kernel is a stop. Where the kernel can stop, the model
returns an outcome that says why, and the contract says exactly when. Only for a full queue of
deferred work it says less: which deferral found no room, that it was due from code already
running, and how few deferrals are enough to avoid it. Where an assertion of the source can never
fail, the model asserts it.

## Parts

- **Kernel heap** (`HeapBuckets`, `HeapLayout`, `HeapLists`, `HeapTiling`, `HeapSteps`,
  `HeapMerging`, `HeapService`, `KernelHeap`, `HeapClient`): a boundary-tag allocator on an array
  of 4-byte words, with 35 doubly linked free lists whose links live in the free blocks, fences,
  splitting and coalescing. The invariant says that arenas are tiled, tags agree, lists hold exactly
  the free blocks, each once and in its own list, and no two free blocks touch.
- **Page index** (`AvlTree`, `AvlNodes`, `PageEntries`, `PageSplit`, `PageOps`, `AddressSpace`): an
  AVL tree keyed by runs of pages under a comparator that calls overlapping runs equal. Its meaning
  is a map from page to address, file offset and permissions. `AvlNodes` shows that the linked nodes
  of the source implement the tree that `AddressSpace` uses as a value.
- **Blocking** (`ThreadList`, `Blocking`, `BlockingRuns`, `BlockingLaws`, `Scheduler`): semaphores with hand-off,
  timed waits and sleeps. `Blocking` and `BlockingRuns` are the state machine; `BlockingLaws` says
  what each step does, in terms of the state before and after; `Scheduler` is the code that updates
  the state in place; `ThreadList` is the intrusive list. A thread that blocks keeps
  the processor until the next switch, so it can be woken before it was ever switched out.
- **Mailbox** (`MailboxRing`, `Mailbox`, `MailboxCalls`, `Transfers`): the byte ring, any interleaving
  of threads using it, what each call has done once it is over, and the chunked transfers through it.
- **Interrupt levels** (`HeapOrder`, `ArrayHeap`, `Irql`, `SchedulerLock`): the array heap, deferred
  work with nested draining, and the recursive scheduler lock on top of it.
- **Physical pages, DemoFS images, calendar** (`PhysicalPages`, `DemoFsFormat`, `DemoFsLayout`,
  `DemoFsImage`, `Calendar`).

`Basics` holds the few small notions they share.

## Where the code does less than it seems to promise

Each of these has its exact condition proved.

- No heap serves a request above 8 KiB (`HeapService.LargeRequestsStop`): the reserves are 16 KiB
  each, so no memory comes from the system for more than 4 KiB (`HeapService.NoMemoryFromSystem`),
  although the size table goes on to 256 KiB. Above 128 KiB the table is indexed past its end
  (`HeapService.StopForIs`). Exactly when a smaller request succeeds is in
  `KernelHeap.Heap.AllocHeapEx`.
- `TreeDelete` of an absent key still lowers the size (`AvlTree.DropCountsRight`).
- `GetPhysFromVirt` on a run without backing depends on whether the run was split
  (`PageSplit.PhysOfAfterCut`).
- Hardware pages mapped without an address, three or more, become one entry that owns memory and
  cannot be split (`PageOps.StopsExactly`).
- Locked pages of the current space are left writable (`PageOps.WritableAsAsked`): the test for
  taking the permission away again comes after the entry was made writable, and so never sees a
  reason to (`PageOps.StillWritable`).
- `ReleaseSemaphoreEx` asked for 0 units releases everything (`BlockingRuns.ReleasesAsAsked`).
- A name of more than 24 bytes is cut in a DemoFS image (`DemoFsImage.Cut`).
- A time value past the year 2400 does not come back (`Calendar.ValueRoundTrip`), and a 31st of a
  shorter month is taken for a day of the next one (`Calendar.DayCarries`).
- Code that defers to a higher level, or raises to a lower one than it runs at, stops the kernel
  wherever it is nested; code that does not can stop it only at a deferral that finds the queue
  of 32 full (`Irql.Cpu.Run`).

## Model

| member | source | states |
|---|---|---|
| HeapBuckets.RungIsListSize | kernel/mem/heap.c:182-194 | the arithmetic form of the list sizes is the table of 35 sizes, entry by entry |
| HeapBuckets.RungsIncrease | kernel/mem/heap.c:182-194 | the sizes are strictly increasing |
| HeapBuckets.SmallestListThatFits | kernel/mem/heap.c:201-209 | the first list whose minimum is at least the request, or one past the last list where the source indexes past its table |
| HeapBuckets.InsertionIndex | kernel/mem/heap.c:215-233 | the list whose minimum is the largest strictly below the payload, or list 0; payloads the table cannot hold are told apart, where the source panics |
| HeapBuckets.FilesUnique | kernel/mem/heap.c:215-233 | a payload is filed in one list only |
| HeapBuckets.FoundBlockFits | kernel/mem/heap.c:201-233 | any block filed at or above the list searched for a request holds that request, although one lookup rounds up and the other down |
| HeapBuckets.SystemBlockIsSearched | kernel/mem/heap.c:505-532 | a block requested from the system for the next size up is filed in a list the search had found empty |
| HeapTiling.ArenasAreTiled | kernel/mem/heap.c:305-343 | under the invariant every word of an arena lies in exactly one block and no block reaches outside the arenas |
| HeapTiling.JoinGeometry | kernel/mem/heap.c:398-432 | joining a block with its right neighbour keeps the arenas tiled |
| HeapTiling.CutGeometry | kernel/mem/heap.c:468-497 | cutting a block in two keeps the arenas tiled |
| HeapTiling.AddArenaGeometry | kernel/mem/heap.c:305-343 | a new arena of two fences and one block, apart from the others, keeps the arenas tiled |
| HeapTiling.BodyCanBeFiled | kernel/mem/heap.c:215-233 | no block between two fences is too large for the table, so filing it never panics |
| HeapLists.UnlinkKeepsInv | kernel/mem/heap.c:351-369 | taking a block off its doubly linked list keeps tags, links, filing and coalescing, with that block in hand |
| HeapLists.PushKeepsInv | kernel/mem/heap.c:375-433 | linking a block whose neighbours are in use in front of its list and marking it free re-establishes the whole invariant |
| HeapSteps.JoinKeepsInv | kernel/mem/heap.c:398-432 | rewriting the tags of two neighbours as one block keeps the invariant |
| HeapSteps.CutKeepsInv | kernel/mem/heap.c:468-497 | writing the tags of a split keeps the invariant, with the rest handed out |
| HeapSteps.TakeKeepsInv | kernel/mem/heap.c:452-466 | handing out a whole block keeps the invariant |
| HeapSteps.ArenaKeepsInv | kernel/mem/heap.c:305-343 | writing the tags of a new arena keeps the invariant, with its block in hand |
| HeapMerging.NeighboursOf | kernel/mem/heap.c:375-385 | the word before a block leads to its left neighbour, its size leads to the right one, and the flag bits say whether they are free |
| HeapMerging.TripleJoin | kernel/mem/heap.c:420-432 | three neighbours become one block with a single rewriting of two tags |
| HeapService.RoundUpSize | kernel/mem/heap.c:239-247 | 8 bytes for up to 8, and otherwise the next multiple of 8 |
| HeapService.SystemPagesRound | kernel/mem/heap.c:305-316 | the pages asked for are the next list size with tags and fences, rounded up |
| HeapService.CarveReserve | kernel/mem/heap.c:57-82 | taking the front pages off one reserve leaves all reserves and arenas apart from each other and from those pages |
| HeapService.LiveBlocksApart | kernel/mem/heap.c:539-571 | live blocks have 8-aligned headers, lie strictly between the fences of their arena and share no word, tags included |
| HeapService.CanServeFrom | kernel/mem/heap.c:505-532 | the exact condition under which a request succeeds, list by list |
| HeapService.NothingServes | kernel/mem/heap.c:201-209 | for a request above the largest list size no list is right |
| HeapService.StopForIs | kernel/mem/heap.c:505-532 | the end of the size table is reached exactly by requests above 128 KiB |
| HeapService.NoMemoryFromSystem | kernel/mem/heap.c:17-82 | no reserve ever has the pages for a request above 4 KiB |
| HeapService.WholeReserveServes | kernel/mem/heap.c:57-129 | while some reserve is whole every request of up to 4 KiB is served |
| HeapService.LargeRequestsStop | kernel/mem/heap.c:505-532 | no heap serves a request above 8 KiB: no reserve has the pages, and no block in an arena is large enough for the lists searched |
| HeapService.RequestsThatStop | kernel/mem/heap.c:505-532 | 8200 bytes stop any heap for want of reserves, and 131080 bytes at the end of the table |
| HeapService.EmptyArenaIsWhole | kernel/mem/heap.c:375-433 | an arena with no live block is one free block from fence to fence, and listed: coalescing leaves no fragments |
| HeapService.EmptyArenaServes | kernel/mem/heap.c:505-532 | a heap with such an arena serves every request up to the minimum of the list its block is on |
| HeapService.ThreePagesServe | kernel/mem/heap.c:505-532 | 8 KiB can be served: an arena of three pages with no live block is enough |
| HeapService.ServedContents | kernel/mem/heap.c:539-571 | after a request was served the contents of the heap are those before plus one new block |
| HeapService.FreedContents | kernel/mem/heap.c:581-600 | after a block was given back the contents are those before less that block |
| HeapService.StoreKeepsInv | kernel/mem/heap.c:539-579 | a store into the payload of a live block keeps the invariant and changes no other block |
| KernelHeap.Heap.GetSize | kernel/mem/heap.c:276-280 | the size of any block; the assertion that its two tags agree always holds |
| KernelHeap.Heap.SetSizeTags | kernel/mem/heap.c:288-291 | both tags are rewritten, the flag bits of the first kept |
| KernelHeap.Heap.RemoveBlock | kernel/mem/heap.c:351-369 | the neighbours on the list, or the head, are made to skip the block, and no other word changes |
| KernelHeap.Heap.MergeRight | kernel/mem/heap.c:398-407 | the block and a free right neighbour become one block with no free neighbour left; live blocks are undisturbed |
| KernelHeap.Heap.MergeLeft | kernel/mem/heap.c:409-418 | the same with a free left neighbour |
| KernelHeap.Heap.MergeBoth | kernel/mem/heap.c:420-432 | the same with both |
| KernelHeap.Heap.AddBlock | kernel/mem/heap.c:375-433 | a block in hand is coalesced and filed; it calls itself again exactly when a neighbour was free, and then only once; every other live block keeps its place and bytes |
| KernelHeap.Heap.SmallestReserve | kernel/mem/heap.c:57-72 | a smallest valid reserve among those large enough, or none exactly if none is |
| KernelHeap.Heap.AllocateFromReserveBlocks | kernel/mem/heap.c:57-82 | pages apart from every arena and from what stays in reserve, off the front of a smallest reserve that is large enough; it stops exactly if there is none, with nothing changed |
| KernelHeap.Heap.RequestBlock | kernel/mem/heap.c:305-343 | a fenced arena whose one block is in hand; it stops exactly if no reserve has the pages, with nothing changed |
| KernelHeap.Heap.AllocateBlock | kernel/mem/heap.c:440-498 | the front block of a list is handed out whole only if less than a block would be left of it, and otherwise its end is cut off with the rest free again; the block handed out is 8-aligned, large enough and at most 8 bytes larger, and the live blocks are those before plus this one |
| KernelHeap.Heap.FindBlock | kernel/mem/heap.c:505-532 | succeeds exactly under the stated condition, and then the live blocks are those before plus one that is at most 8 bytes too large, cut off the front block of the first list that held one or else of a new arena of just the pages asked for, all others undisturbed, and the reserves lost just those pages; otherwise nothing has changed, and the reason is the end of the table exactly above 128 KiB, else the reserves |
| KernelHeap.Heap.AllocHeapEx | kernel/mem/heap.c:539-571 | NULL for no bytes; otherwise a new block of at least the rounded size and at most 8 bytes more, from the first list that held one or else from a new arena, cleared if asked, with all other contents unchanged and the reserves down by just the pages taken; it stops exactly when it cannot serve, always above 8 KiB, with nothing changed, past the size table exactly above 128 KiB and else for want of reserves |
| KernelHeap.Heap.FreeHeap | kernel/mem/heap.c:581-600 | NULL is ignored; otherwise exactly that block leaves the contents and the invariant holds again |
| KernelHeap.Heap.RefillReservePages | kernel/mem/heap.c:87-129 | a fresh 16 KiB are kept exactly if no reserve was whole and a slot was free; afterwards a reserve is whole or every slot is taken; the contents of the heap are unchanged |
| KernelHeap.Heap.AddBlockToBackupHeap | kernel/mem/heap.c:87-108 | the same for the second half alone, at any later time: kept exactly if a slot is free |
| KernelHeap.Heap.constructor | kernel/mem/heap.c:20-44 | a heap of empty lists and one bootstrap reserve satisfies the invariant |
| HeapClient.Serve | kernel/mem/heap.c:539-600 | one request of a client, or a refill of the reserves, keeps the heap holding exactly what the client believes; it is refused exactly when the heap cannot serve it, and then nothing has changed; the reserves change by just what the request takes or adds |
| HeapClient.Run | kernel/mem/heap.c:539-600 | for every script of allocations, cleared or not, stores, frees and refills at any time, what the client works out from its own requests is what its blocks hold at the end; the run goes on to the end of the script or to the first request that the heap as it then is cannot serve |
| AvlTree.RebalanceKeepsOrder | kernel/adt/tree.c:48-87 | rotations and balancing keep the in-order sequence |
| AvlTree.RebalanceRepairs | kernel/adt/tree.c:64-87 | a node whose subtrees are balanced and differ by at most two becomes balanced and at most one lower |
| AvlTree.Insert | kernel/adt/tree.c:89-122 | the result is balanced and at most one higher, so the assertion on the balance factor never fails |
| AvlTree.Delete | kernel/adt/tree.c:124-161 | the result is balanced and at most one lower |
| AvlTree.InsertPlaces | kernel/adt/tree.c:89-122 | an element is inserted at the one position the comparator gives, for any comparator that splits the sequence |
| AvlTree.DeleteRemoves | kernel/adt/tree.c:124-161 | the matching element is removed and no other |
| AvlTree.DeleteAbsent | kernel/adt/tree.c:124-161 | deleting what is not there changes nothing |
| AvlTree.Get | kernel/adt/tree.c:168-186 | the unique element that matches, if any |
| AvlTree.Contains | kernel/adt/tree.c:201-211 | true exactly if an element matches, although both subtrees are searched |
| AvlTree.InsertedOrdered | kernel/adt/tree.c:89-122 | insertion keeps the strict order |
| AvlTree.RunRepresents | kernel/adt/tree.c:254-278 | after every sequence of inserts of new keys and deletes of present ones the tree is ordered, balanced, holds exactly the abstract set and its size is right |
| AvlTree.DropCountsRight | kernel/adt/tree.c:263-266 | the kept size stays right exactly if the deleted key was there, because TreeDelete decrements it in any case |
| AvlNodes.AvlRotateLeft | kernel/adt/tree.c:48-54 | relinking the nodes in place is the rotation of the tree they stand for |
| AvlNodes.AvlRotateRight | kernel/adt/tree.c:56-62 | the same, mirrored |
| AvlNodes.AvlBalance | kernel/adt/tree.c:64-87 | balancing linked nodes in place is balancing the tree |
| AvlNodes.AvlInsert | kernel/adt/tree.c:89-122 | the path rebuilt with new nodes stands for the tree with the element inserted |
| AvlNodes.AvlDelete | kernel/adt/tree.c:124-161 | overwriting links and data in place deletes the element from the tree |
| AvlNodes.AvlGet | kernel/adt/tree.c:168-186 | the walk over linked nodes finds what the tree says |
| AvlNodes.AvlContains | kernel/adt/tree.c:201-211 | the search over linked nodes finds what the tree says |
| AvlNodes.GetHeight | kernel/adt/tree.c:23-38 | the height of the tree |
| AvlNodes.SearchTree.TreeInsert | kernel/adt/tree.c:254-261 | the tree object stands for the tree with the element inserted |
| AvlNodes.SearchTree.TreeDelete | kernel/adt/tree.c:263-266 | the tree object stands for the tree without the element; the size goes down in any case |
| AvlNodes.SearchTree.TreeContains | kernel/adt/tree.c:268-270 | membership in the tree the object stands for |
| AvlNodes.SearchTree.TreeGet | kernel/adt/tree.c:272-274 | the matching element of the tree the object stands for |
| PageEntries.CompareDisjoint | kernel/mem/virtual.c:46-68 | the comparator answers equal exactly for overlapping runs of pages and otherwise by their order |
| PageEntries.NarrowKeepsIndex | kernel/mem/virtual.c:898-974 | narrowing an entry in place inside the tree keeps the tree a correct index |
| PageEntries.AddToIndex | kernel/mem/virtual.c:505-516 | inserting an entry apart from all others keeps the index correct |
| PageEntries.RemoveFromIndex | kernel/mem/virtual.c:518-531 | deleting an entry keeps the index correct |
| PageSplit.CutViews | kernel/mem/virtual.c:898-974 | each page of a split run has the same address, offset and permissions in the piece that now covers it |
| PageSplit.CutKeepsPages | kernel/mem/virtual.c:898-974 | a split changes no page of the address space |
| PageSplit.PhysOfAgrees | kernel/mem/virtual.c:878-896 | GetPhysFromVirt gives the page address exactly if the run is backed or the page is its first |
| PageSplit.PhysOfAfterCut | kernel/mem/virtual.c:878-896 | a split changes its answer exactly for later pages of a run without backing |
| PageSplit.PhysOfUnbacked | kernel/mem/virtual.c:878-896 | a run for which it does |
| PageOps.ProbeFinds | kernel/mem/virtual.c:857-876 | a lookup with a one-page key finds the entry covering the page, exactly if there is one |
| PageOps.PermitOne | kernel/mem/virtual.c:1156-1180 | changing the entry of one page changes that page and no other |
| PageOps.PermitLaw | kernel/mem/virtual.c:1172-1175 | a permission bit that is set is on afterwards, one that is only cleared is off, any other is as before; nothing else about the page changes, and no other page |
| PageOps.PermitAnswers | kernel/mem/virtual.c:1156-1169 | each refusal said of the bits asked for and the page they are asked for |
| PageOps.EitherWayTheSame | kernel/mem/virtual.c:803-839 | one entry for n pages and n entries for one page say the same about every page |
| PageOps.PlanIsAsked | kernel/mem/virtual.c:556-651 | the entries built give each page the address, file offset and attributes that follow from what was asked for |
| PageOps.LockedPagesApart | kernel/mem/virtual.c:579-582 | locked pages that get their memory page by page have different addresses if the pages handed out are different |
| PageOps.MapErrorIs | kernel/mem/virtual.c:784-798 | a mapping is accepted exactly if it breaks none of the rules for its flags, address, file and position |
| PageOps.WritableAsAsked | kernel/mem/virtual.c:556-651 | pages are as writable as asked except exactly for locked non-hardware pages of the current space, which are left writable |
| PageOps.StillWritable | kernel/mem/virtual.c:633-647 | once the page was made writable its entry says so, so the test for taking the permission away again fails |
| PageOps.ReadOnlyComesOutWritable | kernel/mem/virtual.c:633-647 | one locked page of the current space asked for read-only is mapped without error and comes out writable |
| PageOps.StopsExactly | kernel/mem/virtual.c:803-839 | the one-entry form owns memory, and would trip the assertions of a later split, exactly for hardware pages without an address and three or more of them |
| PageOps.MapThenUnmap | kernel/mem/virtual.c:779-846 | unmapping what was mapped into free pages leaves every page as it was |
| PageOps.UnmapRemovesExactly | kernel/mem/virtual.c:1280-1302 | with single references exactly the pages of the range disappear |
| PageOps.DroppedIs | kernel/mem/virtual.c:1218-1250 | a page that loses a reference goes with its last one and otherwise keeps everything else |
| PageOps.SplittableIs | kernel/mem/virtual.c:898-974 | some page would stop a split exactly if some entry of several pages owns memory or is swapped out |
| AddressSpace.Vas.constructor | kernel/mem/virtual.c:78-95 | an empty address space |
| AddressSpace.Vas.Add | kernel/mem/virtual.c:505-516 | one new entry, in the tree its kind belongs to |
| AddressSpace.Vas.Remove | kernel/mem/virtual.c:518-531 | that entry is gone from its tree |
| AddressSpace.Vas.GetVirtEntry | kernel/mem/virtual.c:857-876 | the entry covering the page in the local or else the global tree, exactly if there is one |
| AddressSpace.Vas.IsRangeInUse | kernel/mem/virtual.c:653-689 | true exactly if some page of the range is mapped |
| AddressSpace.Vas.Split | kernel/mem/virtual.c:898-974 | the entry is narrowed to the pages wanted, the rest is covered by new entries, and no page changes; it stops exactly on runs that own memory or are swapped out |
| AddressSpace.Vas.SetVirtPermissionsEx | kernel/mem/virtual.c:1156-1180 | the stated error and no change, or exactly one page changes: bit by bit a permission is on if set, off if only cleared and as before otherwise, and its address, offset and every other attribute are unchanged |
| AddressSpace.Vas.DereferenceEntry | kernel/mem/virtual.c:1218-1250 | any entry has one reference less, and goes with its last one; no other entry changes |
| AddressSpace.Vas.UnmapVirtEx | kernel/mem/virtual.c:1280-1302 | each page of the range loses one reference and no other page changes, although the split is passed the start of the range; it ends early exactly at the first page not mapped, unless that is allowed, or the first page whose entry cannot be split, and the same pages cannot be split before and after |
| AddressSpace.Vas.AddMapping | kernel/mem/virtual.c:556-651 | exactly the pages of the new entry are added, with the permissions the clearing of locked pages leaves |
| AddressSpace.Vas.TakeBackWrite | kernel/mem/virtual.c:640-642 | an entry found writable is left alone, and one found read-only loses the permission for that page alone |
| AddressSpace.Vas.MapVirtEx | kernel/mem/virtual.c:779-846 | the stated error and no change, or exactly the pages of the run are added, where it was asked for or elsewhere, each with the address, file offset and attributes that follow from the arguments |
| AddressSpace.Vas.GetPhysFromVirt | kernel/mem/virtual.c:878-896 | the page address for backed pages, and for others what the formula gives |
| ThreadList.List.Insert | kernel/thread/threadlist.c:39-56 | the thread is appended; links of other lists are untouched |
| ThreadList.List.GetIndex | kernel/thread/threadlist.c:58-69 | the position of the thread, or -1 exactly if it is not on the list |
| ThreadList.List.Contains | kernel/thread/threadlist.c:71-73 | membership |
| ThreadList.List.ProperDelete | kernel/thread/threadlist.c:75-89 | the thread is unlinked, head and tail are right again, links of other lists are untouched |
| ThreadList.List.DeleteIndex | kernel/thread/threadlist.c:91-109 | the thread at the position is taken off |
| ThreadList.List.Delete | kernel/thread/threadlist.c:125-127 | the thread is taken off and the others keep their order |
| ThreadList.List.DeleteTop | kernel/thread/threadlist.c:111-123 | the front thread is taken off |
| Blocking.ExactlyOnePlace | kernel/thread/thread.c:457-508 | every thread is in exactly one of running, ready or blocked; a timed waiter is on its semaphore list exactly if it is on the sleep list |
| Blocking.WaiterIsOffTheReadyList | kernel/sync/semaphore.c:100-140 | a waiter is never on the ready list, so the case of one already there never occurs |
| Blocking.SleeperIsListed | kernel/sync/semaphore.c:194-198 | a sleeper with a time-out is on the list of the semaphore it waits for, so the assertion there never fails |
| Blocking.AcquireKeepsInv | kernel/sync/semaphore.c:54-98 | acquiring with any time-out keeps the invariant of the whole scheduler |
| Blocking.SleepKeepsInv | kernel/thread/timer.c:141-155 | sleeping keeps the invariant |
| Blocking.GiveKeepsInv | kernel/sync/semaphore.c:100-140 | giving up one unit, by hand-off or by lowering the count, keeps the invariant |
| Blocking.ExpiredKeepsInv | kernel/thread/timer.c:124-136 | the expiry of one sleep keeps the invariant |
| Blocking.ScheduleKeepsInv | kernel/thread/thread.c:457-508 | a switch keeps the invariant and always ends with a running thread, even if the old one was woken before it was switched out |
| BlockingRuns.ReleasesAsAsked | kernel/sync/semaphore.c:142-155 | ReleaseSemaphoreEx releases what it is asked to exactly for 1 up to all units out or waited for; asked for none or for more it releases all of them, and for a negative number none |
| BlockingRuns.ZeroReleasesAll | kernel/sync/semaphore.c:142-155 | asked for 0 units of a semaphore with two out, it releases both |
| BlockingRuns.ReleasedExactly | kernel/sync/semaphore.c:142-155 | the units go to the longest waiters in order and the rest lowers the count; no other semaphore changes |
| BlockingRuns.TickFirst | kernel/thread/timer.c:108-139 | waking the first sleeper due and then the others is waking all of them at once |
| BlockingRuns.TickKeepsInv | kernel/thread/timer.c:108-139 | a tick keeps the invariant |
| BlockingRuns.BootInv | kernel/sync/semaphore.c:21-30 | a machine with its idle thread running and all others ready satisfies the invariant |
| BlockingRuns.RunKeepsInv | kernel/thread/thread.c:125-143 | the invariant holds after every sequence of acquire, release, sleep, tick and schedule steps |
| BlockingRuns.SemaphoreSafety | kernel/sync/semaphore.c:54-155 | at the end of every sequence the count is the initial count the semaphore was made with plus grants less releases, at most the maximum, and at the maximum while anybody waits |
| BlockingRuns.ListedInOrder | kernel/sync/semaphore.c:85-89 | the waiting list is in the order the waits began |
| BlockingRuns.NoOvertaking | kernel/sync/semaphore.c:100-140 | no sequence grants a later waiter while an earlier one still waits |
| BlockingRuns.AnswerIsRight | kernel/sync/semaphore.c:96-98 | a thread past its wait gets 0 exactly if its acquire was granted a unit |
| BlockingRuns.SleepEndsRight | kernel/thread/timer.c:124-155 | a sleeper is woken exactly when its time has come or it has a signal, and SleepUntil answers EINTR exactly when it has one |
| BlockingLaws.AcquireLaw | kernel/sync/semaphore.c:54-98 | a free unit is taken at once for every time-out and the answer is 0; without one a time-out of 0 answers EAGAIN and changes no list and no count, and any other puts the caller last on the list, and on the sleep list exactly if the wait is timed |
| BlockingLaws.AcquireDecides | kernel/sync/semaphore.c:76-94 | the caller goes on exactly if a unit was free or it would not wait, and the count goes up exactly if one was free |
| BlockingLaws.TimedWaitEnds | kernel/sync/semaphore.c:88-92 | a timed wait ends a million nanoseconds per millisecond from now |
| BlockingLaws.SleepLaw | kernel/thread/timer.c:141-155 | a time that has passed returns at once; otherwise the caller is the last sleeper, until just that time |
| BlockingLaws.ScheduleLaw | kernel/thread/thread.c:457-508 | the front of the ready list runs next and a thread still running goes to the back; with nobody ready nothing changes |
| BlockingLaws.GiveLaw | kernel/sync/semaphore.c:100-140 | the longest waiter gets the unit and becomes ready, off both lists, with the count as it was; with no waiter the count goes down |
| BlockingLaws.TickLaw | kernel/thread/timer.c:108-139 | exactly the sleepers due or signalled leave both lists, become ready and are marked; no other thread changes |
| BlockingLaws.BootLaw | kernel/sync/semaphore.c:21-30 | the idle thread runs, the others are ready in order, and every semaphore is as it was made |
| Scheduler.Delete | kernel/thread/threadlist.c:125-127 | a list without one thread, the others in order |
| Scheduler.Scheduler.AcquireSemaphore | kernel/sync/semaphore.c:54-98 | the updates in place are the acquire step, and the invariant holds |
| Scheduler.Scheduler.DecrementSemaphore | kernel/sync/semaphore.c:100-140 | the updates in place are one unit given up |
| Scheduler.Scheduler.ReleaseSemaphoreEx | kernel/sync/semaphore.c:142-155 | the loop gives up exactly the number of units it returns |
| Scheduler.Scheduler.CancelSemaphoreOfThread | kernel/sync/semaphore.c:194-198 | the thread leaves the list of the semaphore it waits for |
| Scheduler.Scheduler.QueueForSleep | kernel/thread/timer.c:74-78 | the thread joins the sleep list with its flag cleared |
| Scheduler.Scheduler.TryDequeueForSleep | kernel/thread/timer.c:80-95 | the thread leaves the sleep list, and the answer says whether it was on it |
| Scheduler.Scheduler.SleepUntil | kernel/thread/timer.c:141-155 | the updates in place are the sleep step |
| Scheduler.Scheduler.HandleSleepWakeups | kernel/thread/timer.c:108-139 | the walk that starts over after every wake-up wakes exactly the sleepers due, in list order |
| Scheduler.Scheduler.BlockThread | kernel/thread/thread.c:125-132 | only the state of the current thread changes |
| Scheduler.Scheduler.UnblockThread | kernel/thread/thread.c:134-143 | the thread leaves its semaphore list if it waited with a time-out, and joins the ready list |
| Scheduler.Scheduler.SwitchToNewTask | kernel/thread/thread.c:427-455 | the front of the ready list becomes the running thread |
| Scheduler.Scheduler.ScheduleWithLockHeld | kernel/thread/thread.c:457-508 | the updates in place are the schedule step, and the current thread is running afterwards |
| Scheduler.Scheduler.constructor | kernel/sync/semaphore.c:21-30 | the state before the first step |
| MailboxRing.PutAppends | kernel/sync/mailbox.c:103-105 | writing at the end position appends to the bytes waiting |
| MailboxRing.TakenDrops | kernel/sync/mailbox.c:171-173 | reading at the start position takes the oldest byte waiting |
| MailboxRing.Buffer.AddBytes | kernel/sync/mailbox.c:101-107 | the loop appends the first n bytes in order, across the wrap |
| MailboxRing.Buffer.GetBytes | kernel/sync/mailbox.c:198-204 | the loop takes the n oldest bytes in order, across the wrap |
| MailboxRing.Buffer.constructor | kernel/sync/mailbox.c:34-49 | an empty ring |
| Mailbox.StartInv | kernel/sync/mailbox.c:34-49 | a new mailbox satisfies the invariant |
| Mailbox.NothingRunsOut | kernel/sync/mailbox.c:60-213 | a thread about to write has room, one about to read has a byte, and every release has the units it gives up |
| Mailbox.BatchReleasesInFull | kernel/sync/mailbox.c:110-112 | each batch release does its full count, whoever else waits on the semaphore |
| Mailbox.WriteKeepsInv | kernel/sync/mailbox.c:102-106 | writing a byte keeps every unit accounted for, and a batch in one piece |
| Mailbox.ReadKeepsInv | kernel/sync/mailbox.c:199-203 | reading a byte keeps every unit accounted for, and a batch in one piece |
| Mailbox.StepKeepsInv | kernel/sync/mailbox.c:60-213 | every step of every thread, failed waits included, keeps the invariant |
| Mailbox.RunConserves | kernel/sync/mailbox.c:60-213 | in every interleaving the bytes taken out followed by those in the ring are the bytes put in, in order; ring, semaphores and mutexes stay in range |
| Mailbox.QuietBoxBalances | kernel/sync/mailbox.c:60-213 | when every call is over, each unit is room in the ring or a byte in it |
| MailboxCalls.AddCallDid | kernel/sync/mailbox.c:74-132 | whatever other threads do meanwhile, an add call that is over has put in the first n of its bytes, n at least 1, in order and in one piece; a probe or a call that gave up has put in nothing |
| MailboxCalls.GetCallDid | kernel/sync/mailbox.c:153-213 | a get call that is over has taken 1 up to the bytes it asked for, in order and in one piece; a probe or a call that gave up has taken nothing |
| MailboxCalls.AddAloneDid | kernel/sync/mailbox.c:84-116 | with nobody else about, an add call to a mailbox with room ends and puts in as many of its bytes as there is room for |
| MailboxCalls.GetAloneDid | kernel/sync/mailbox.c:181-213 | with nobody else about, a get call on a mailbox with bytes ends and takes the oldest, as many as asked for or as there are |
| Transfers.Transfer.PerformOut | kernel/vfs/transfer.c:92-134 | the next bytes of the buffer, and the position moves by as many |
| Transfers.Transfer.PerformIn | kernel/vfs/transfer.c:92-134 | as many bytes as fit go to the position in the buffer and nowhere else, and the position moves by as many |
| Transfers.Transfer.RevertTransfer | kernel/vfs/transfer.c:81-86 | the position moves back |
| Transfers.WriteRound | kernel/sync/mailbox.c:225-242 | what was taken from the transfer and not accepted goes back to it; as much is accepted as the mailbox has room for |
| Transfers.AccessWrite | kernel/sync/mailbox.c:215-258 | the bytes accepted are the consumed prefix in order, exactly as many as chunk after chunk goes through until the mailbox refuses, offset plus remaining length is unchanged, and an error means exactly that nothing moved; a call for no bytes only asks whether one would go through |
| Transfers.AccessRead | kernel/sync/mailbox.c:215-258 | the bytes delivered, exactly as many as chunk after chunk goes through until the mailbox refuses or is empty, fill the buffer from the front, and nothing else in it changes; an error means exactly that nothing moved; a call for no bytes only asks whether one is there |
| Transfers.AccessMovesAll | kernel/sync/mailbox.c:215-258 | everything there is moves if the mailbox never refuses before that |
| Transfers.AccessStarts | kernel/sync/mailbox.c:215-258 | something moves exactly if there is something to move and the call may wait or the mailbox does not refuse its first chunk |
| Transfers.AccessInChunks | kernel/sync/mailbox.c:216-242 | a mailbox with room to spare takes a transfer in chunks of 256 bytes |
| HeapOrder.SiftUpHeapifies | kernel/adt/heap.c:79-95 | climbing past equal priorities in a max heap as the source does, the sequence becomes a heap of the same elements |
| HeapOrder.BestInBounds | kernel/adt/heap.c:56-77 | the index chosen is in bounds, is the element or one of its children, and may stand above the others |
| HeapOrder.SiftDownHeapifies | kernel/adt/heap.c:69-77 | sinking makes the sequence a heap of the same elements |
| HeapOrder.RootIsExtreme | kernel/adt/heap.c:101-109 | the root is an extreme of the heap |
| ArrayHeap.InsertedIsHeap | kernel/adt/heap.c:79-95 | insertion adds one element and keeps the heap |
| ArrayHeap.PoppedIsHeap | kernel/adt/heap.c:115-126 | removal takes the root and keeps the heap |
| ArrayHeap.PriorityQueue.constructor | kernel/adt/heap.c:25-37 | an empty heap |
| ArrayHeap.PriorityQueue.SwapElements | kernel/adt/heap.c:44-54 | two elements change places |
| ArrayHeap.PriorityQueue.GetMinOrMaxIndex | kernel/adt/heap.c:56-67 | the index the rules for ties and for the end of the array give |
| ArrayHeap.PriorityQueue.Heapify | kernel/adt/heap.c:69-77 | the recursion on the array is the sinking of one element; it ends and stays in bounds, also on an empty heap |
| ArrayHeap.PriorityQueue.Insert | kernel/adt/heap.c:79-95 | exactly one element is added, unless the queue is full, where the source panics |
| ArrayHeap.PriorityQueue.Peek | kernel/adt/heap.c:101-109 | an element of extreme priority |
| ArrayHeap.PriorityQueue.Pop | kernel/adt/heap.c:115-126 | exactly the element Peek gives is removed |
| Irql.Cpu.constructor | kernel/irq/irql.c:123-128 | a processor at the standard level with an empty queue with room for 32 |
| Irql.Cpu.DeferUntilIrql | kernel/irq/irql.c:24-38 | work for the current level runs at once and to its end, work for a higher one panics, work for a lower one joins the queue, or panics exactly if the queue is full; all of it stays accounted for; work that keeps to the rules never ends in the panic over levels |
| Irql.Cpu.RaiseIrql | kernel/irq/irql.c:44-58 | the level is raised, or it panics exactly for a lower one |
| Irql.Cpu.Run | kernel/irq/irql.c:24-117 | any handler that defers, raises and lowers, however nested, carries out all of its actions and ends at the level it began at; every handler run meanwhile ran at its own level and to its end, and nothing deferred is lost or run twice; it panics on a level exactly if some action carried out broke the rules, never if it and all queued work keep to them; a full queue is answered only at a deferral, named in the outcome, that code already running still had to make, with all else accounted for, and never if the queue can hold all deferrals to come |
| Irql.Cpu.Drain | kernel/irq/irql.c:69-104 | the assertion in the loop always holds, the nested draining ends, and it reaches its end unless queued work breaks the rules or a deferral in it finds the queue full |
| Irql.Cpu.LowerIrql | kernel/irq/irql.c:60-117 | afterwards nothing queued has the target level or a higher one, only work of the target level or above has run, and that to its end; it gets there whenever the queued work keeps to the rules and no deferral in it finds the queue full |
| SchedulerLock.RecursiveLock.AcquireSpinlock | kernel/sync/spinlock.c:17-34 | a lock already held panics, a lock below the current level panics in the raise, and otherwise it is held at its own level and remembers the level before |
| SchedulerLock.RecursiveLock.ReleaseSpinlock | kernel/sync/spinlock.c:36-44 | a lock not held panics; otherwise it is free and the processor is back at the remembered level with the work due there done, unless that work breaks the rules or a deferral in it finds the queue full |
| SchedulerLock.RecursiveLock.LockScheduler | kernel/thread/thread.c:398-408 | one level deeper, at the scheduler level, with no deferred work run |
| SchedulerLock.RecursiveLock.UnlockScheduler | kernel/thread/thread.c:410-421 | one level less deep; the outermost frees the lock first and then restores the level of entry despite the swap of the saved levels; it stops only in deferred work that breaks the rules or at a deferral in it that finds the queue full |
| SchedulerLock.RecursiveLock.Replay | kernel/thread/thread.c:398-421 | for every well-nested sequence of locks, unlocks and code in between the lock is held and the level is the scheduler level exactly while the count is positive, and otherwise the level of entry, and all that was deferred ran to its end or waits; where all code keeps to the rules the only stop is a deferral that finds the queue full, and with no more deferrals than the queue holds there is none |
| PhysicalPages.ReclaimKeepsReachable | kernel/mem/physical.c:300-317 | wherever the bitmap lies, every byte given back is inside it, behind the byte of the highest page, and before its end |
| PhysicalPages.Allocator.constructor | kernel/mem/physical.c:262-294 | exactly the pages of the memory map are free, and they are counted right |
| PhysicalPages.Allocator.DeallocPhys | kernel/mem/physical.c:108-126 | exactly that page becomes free and goes on top of the stack; bitmap, stack and count agree, and the stack has room |
| PhysicalPages.Allocator.ScanBitmap | kernel/mem/physical.c:183-193 | the backward scan ends, at the first free page in its order |
| PhysicalPages.Allocator.AllocPhys | kernel/mem/physical.c:171-203 | a page that was free, and exactly that one is no longer: page 0 or else the highest one before the stack is there, and then the top of the stack; it panics exactly if none is left |
| PhysicalPages.Allocator.FillStack | kernel/mem/physical.c:331-335 | the stack holds each free page once |
| PhysicalPages.Allocator.ReclaimBitmapSpace | kernel/mem/physical.c:300-317 | exactly the pages under the end of the bitmap become free |
| PhysicalPages.Allocator.ReinitPhys | kernel/mem/physical.c:323-339 | the stack takes over with exactly the free pages |
| PhysicalPages.Run | kernel/mem/physical.c:108-203 | in every sequence of allocations and deallocations with the switch anywhere in it, pages held are distinct and not free, none is lost, and a page is handed out whenever one is free |
| DemoFsFormat.DecodeEncode | tools/mkdemofs.cpp:208-216 | a slot decodes to the name, number and length it was written from |
| DemoFsFormat.SlotFormat | tools/mkdemofs.cpp:208-216 | a slot byte by byte: name, length, sector number and flag |
| DemoFsFormat.ReadFilled | tools/mkdemofs.cpp:222-228 | the data of a file reads back |
| DemoFsFormat.FillOnly | tools/mkdemofs.cpp:222-228 | writing a file changes its own sectors only |
| DemoFsLayout.ListingSame | tools/mkdemofs.cpp:142-258 | a directory none of whose sectors changed lists what it did |
| DemoFsLayout.PlaceSlot | tools/mkdemofs.cpp:203-231 | one more slot is one more entry at the end of the listing, and no other |
| DemoFsLayout.GrownKeeps | tools/mkdemofs.cpp:240-251 | a full directory gets an empty continuation with a larger number and lists what it did |
| DemoFsImage.Cut | tools/mkdemofs.cpp:208-208 | a name comes back exactly if it has at most 24 bytes |
| DemoFsImage.SuperblockNamesRoot | tools/mkdemofs.cpp:76-102 | the superblock names the root directory |
| DemoFsImage.SuperblockFormat | tools/mkdemofs.cpp:76-102 | the superblock byte by byte |
| DemoFsImage.DirectoryFormat | tools/mkdemofs.cpp:104-197 | a directory sector: its header, where its slots are, its first entry, and how it names its continuation |
| DemoFsImage.Image.constructor | tools/mkdemofs.cpp:66-116 | a formatted image lists the root with its own entry and its superblock names the root |
| DemoFsImage.Image.Write | tools/mkdemofs.cpp:199-258 | the file is listed at the end of the directory with its data, along any chain of continuations; a spare sector is needed only if the whole chain is full; the recursion ends |
| DemoFsImage.Image.Mkdir | tools/mkdemofs.cpp:142-197 | the same for a directory, whose own listing names the sector that holds its entry |
| DemoFsImage.Image.AddFile | tools/mkdemofs.cpp:199-258 | decoding gives, for every directory of the image, exactly what was added to it, before and after; the superblock still names the root, and no two files share a sector |
| DemoFsImage.Image.AddDir | tools/mkdemofs.cpp:142-197 | the same for a new directory |
| Calendar.GetFullLeapYearsSince1601 | libc/common/timeconv.c:28-39 | the number of leap years since 1601 before the year |
| Calendar.LeapsAre | libc/common/timeconv.c:28-39 | the leap years so far by the rule of fours, hundreds and four hundreds |
| Calendar.MonthLengths | libc/common/timeconv.c:8-26 | each month has its length |
| Calendar.UnixEpoch | libc/common/timeconv.c:119-126 | the first moment of 1970 is 11644473600 seconds after that of 1601, which is what the conversion to Unix time subtracts |
| Calendar.TimeStructToValue | libc/common/timeconv.c:41-66 | microseconds since 1601 by the calendar for every accepted date, and 0 for years, months and days out of range |
| Calendar.DayCarries | libc/common/timeconv.c:41-66 | a day past the end of its month has the value of the day as far into the next month |
| Calendar.TimeValueToStruct | libc/common/timeconv.c:68-105 | the one valid time with that value, or year 2401 past the span |
| Calendar.ValueIncreases | libc/common/timeconv.c:41-66 | the value is strictly increasing in the lexicographic order of times |
| Calendar.ValueIsUnique | libc/common/timeconv.c:41-66 | no two times have the same value |
| Calendar.TimeRoundTrip | libc/common/timeconv.c:41-105 | every valid time comes back from its value |
| Calendar.ValueRoundTrip | libc/common/timeconv.c:41-105 | a value comes back from its time exactly if it is inside the span |

## Left out

- Hardware, page tables, TLB, bootloader, drivers, file systems other than the DemoFS writer, shell, logging.
- Fork and copy on write, eviction, swap, faults and relocation (kernel/mem/virtual.c).
- `ReallocHeap`, `AllocPhysContiguous`, alarms, `SetThreadPriority`, signal delivery except that a signal ends a sleep: their behaviour does not match a clean promise.
- Several processors, and the locks themselves other than the scheduler lock: each region under the scheduler lock is one step.
- Creation and termination of threads and semaphores while the scheduler works: their number is fixed in `BlockingRuns.Boot`.
- Thread priorities and time slices: a switch may come at any time in the model.
- `UnblockThreadGiftingTimeslice`: never reached, because the counter it depends on is incremented first.
- KernelHeap.Heap.AllocHeapEx: integer widths are not modelled; sizes and addresses are unbounded, and the bitwise flags below a size are arithmetic on the word.
- KernelHeap.Heap.FreeHeap: requires a pointer that was handed out and not yet freed, which is what the source trusts its callers with.
- AddressSpace.Vas.MapVirtEx: the address chosen by `AllocVirtRange` and the physical frames handed out are parameters; the trees are values there, with the linked nodes treated in `AvlNodes`.
- AddressSpace.Vas.UnmapVirtEx: what happens to the physical pages and files behind an entry is not modelled.
- Scheduler.Scheduler.AcquireSemaphore: thread lists are sequences, with the linked lists treated in `ThreadList`; the early-boot case without a thread is not modelled.
- Scheduler.Scheduler.HandleSleepWakeups: the alarms it starts first are not modelled, nor the call before there is a thread.
- Scheduler.Scheduler.SleepUntil: the answer given after the switch back is `BlockingRuns.SleepResult` of the thread's state then.
- Scheduler.Scheduler.CancelSemaphoreOfThread: the source asserts what is required here, and `Blocking.SleeperIsListed` proves it at every call.
- Mailbox.RunConserves: a hand-off is a release followed at once by the waiter's acquire, and a wait may fail at any time; that a call ends is claimed only for a thread alone with the mailbox.
- KernelHeap.Heap.RefillReservePages: the source lets go of the heap lock while it maps the pages; what comes in between is modelled by `KernelHeap.Heap.AddBlockToBackupHeap` as a step of its own, and the mapping itself is a parameter.
- Transfers.AccessWrite: intra-kernel transfers only, and the mailbox is a script of how much it accepts.
- Transfers.AccessRead: the same; a blocking read of a script that has ended returns an error instead of waiting.
- ArrayHeap.PriorityQueue.SwapElements: an element of several words is one array cell, so the loop over its words is not modelled.
- SchedulerLock.RecursiveLock.AcquireSpinlock: spinlocks of the scheduler's level or above, as all of the source's are.
- Irql.Cpu.Run: handlers are finite trees of defer and raise-lower sections that never raise to level 1, which LowerIrql cannot return to; the postponed task switch, deferral before InitIrql and null handlers are not modelled. Whether a given tree of work overflows the queue is bounded by its number of deferrals, not characterised; this holds for every member that runs deferred work.
- PhysicalPages.Allocator.AllocPhys: a bit of the bitmap is one array cell, and the eviction that low memory triggers is not modelled.
- DemoFsImage.Image.AddFile: names are not empty and hold no zero byte, and sector numbers fit in 24 bits; walking the host's directories is not modelled.
- DemoFsImage.Image.AddDir: the parent entry of a directory whose own entry is in a continuation sector names that sector, as in the source.
- Calendar.TimeStructToValue: time zones, weekdays and the functions for Unix time are not modelled.
