# Homemade OS kernel: verified models of its memory, network and concurrency core

This project models the parts of the kernel whose correctness rests on invariants no single
function shows, and proves those invariants for every input, every run and every reachable state.
`dafny verify dfyconfig.toml` checks everything.

* **Memory.** The buddy allocator over an index array with stale orders (`Buddy`, `BuddyTheorems`,
  `BuddyManager`, on the power-of-two facts of `Dyadic`), the growable arena of linear blocks
  (`LinearBlock`), reference-counted physical blocks (`PhysicalBlock`), page tables with undo on
  failure (`Paging`), and the transactions that tie the three together (`MemoryManager`).
* **TCP.** Sequence numbers and ring slots modulo 2^32 (`TcpSequence`), the receive window as a partial
  map of stream positions and as the ring that implements it (`TcpReassembly`, `TcpServe`,
  `TcpReceive`), the transmit window as the written stream and as the buffer list that implements it
  (`TcpTransmit`), a sender, a lossy network and a receiver together (`TcpEndToEnd`) and what they can still
  achieve from any state (`TcpProgress`), the same run on the two window objects (`TcpConnection`), and the
  listener's queue of connection requests (`SynQueue`). It follows sections 3.4 and 3.8 of RFC 9293.
* **Concurrency.** The circular task queues (`TaskQueues`), the scheduler with semaphores on several
  processors (`Scheduler`), the same run on the linked rings (`SchedulerObject`), the semaphore-guarded
  ring buffer (`FifoRing`, `FifoProtocol`, `FifoObject`), waiting for I/O completion (`IoWait`), the timer
  list (`TimerSpec`, `Timer`, `TimerObject`), and resource enumeration (`ResourceSpec`, `ResourceLists`). Each region that holds a lock is one step of a state machine;
  the loops inside such a region are methods proved against that step.
* **Codecs.** The one's-complement checksum and UDP over IPv4 (`Checksum`, `UdpIp`; section 1 of
  RFC 1071, section 3.1 of RFC 791, the pseudo header of RFC 768), socket names (`SocketName`) and wildcard matching (`Wildcard`).

`Common` and `Arith` hold the shapes and arithmetic that several components share.

State that the C code updates in place is a class; its methods state the new abstract value, and the
laws are lemmas about that value.

## What the proofs show about the code

* `Wildcard.AgreesIff`: the matcher agrees with the usual meaning of a pattern exactly when the pattern
  has no star or starts with one. A literal before the first star is searched for anywhere
  (`FirstLiteralFloats`).
* `TcpSequence.SlotsDistinctIffDivides`: the receive ring keeps the bytes of a window apart exactly when
  the window size divides 2^32; 8192 does.
* `TcpReassembly.FinKeeps`: a FIN that cuts off more than one byte already acknowledged, and only such a
  FIN, moves the acknowledged number back (`FinMovesBack` is such a window). A sender that keeps to its
  own stream never causes one: over every run the acknowledged number and the advertised right edge only
  advance (`TcpEndToEnd.NeverRetreats`).
* `TcpReassembly.FinishReachedIff`: what `tcp.c:840` asserts about a recorded FIN survives the arrival of
  a FIN exactly when that FIN does not overtake missing data (`FinOvertakesData` is a window and a FIN for
  which it fails); data and readers never break it. Over a run it holds throughout exactly when no FIN
  overtakes missing data (`TcpEndToEnd.EntryHoldsIff`). The order documented at `tcp.c:309-310` always
  holds, and the model uses that.
* `TcpTransmit.TCPTransmitWindow.AckTransmitWindow`: after a rollback an acknowledgement can pass the send
  cursor. That happens exactly when the cursor is before the acknowledged position and that position is
  not the start of a buffer (`AckPassesCursor` is such a history). The cursor comes back with the next
  rollback or with an acknowledgement that finishes the buffer it is in. Until then `TransmitTCP` moves
  nothing and sends at most one bare packet, and that only when told to transmit. An acknowledgement more
  than 65535 ahead is ignored even when window scaling allows more in flight (`FarAckIgnored`). If every new
  one is that far ahead, the sender is stuck for good, and only then (`TcpProgress.BaseMovesIff`); with at most
  65535 bytes unacknowledged no state is a dead end (`TcpProgress.NoDeadEnd`).
* `TcpTransmit.EmptyWriteDelaysFin`: the copy loop stops behind an empty write, so a FIN that follows one is
  not sent by the call that reaches it. The next call sends it. Otherwise a successful `TransmitTCP` leaves
  nothing unsent that the window allows.
* `MemoryManager.PageVerdict`: a block is rounded up to a power of two, so its last pages are in use but not
  mapped. `_translatePage` (`page.c:267-276`) tests only the attributes it is asked for, and an entry keeps
  its frame number after the page is released (`page.c:169-176`). So a page of that tail is refused, by the
  assertion at `linearblock.c:299`, exactly when an attribute it lacks is asked for; presence is one. Asked
  for nothing, as `file.c:354-356` and `linearblock.c:310` do, the code goes on with whatever the entry was
  left with: frame 0 in a new page table, or the frame of an earlier block, which may by then belong to
  somebody else or to nobody (`TailShowsLeftover`). Asked for a kernel page, the assertion also fails for a
  page inside the mapped size that is read-only.
* `MemoryManager.ShownSameIff`, `CheckAndMapExistingPages`: the new block shows the frames of the source range
  if and only if no page of the range is in a tail, which asking for present pages guarantees.
* `LinearBlock.LinearMemoryBlockManager.AllocateNothing`: a request for zero bytes, which the heap system call
  passes on, locks a block that stays in its free list, and the next request is offered that block. For
  every positive size statuses and free lists stay in agreement.
* `SocketName.NameDependsIff`: a port text of blanks only, as in "1.2.3.4:", leaves the scanned number
  unassigned in the C code and is accepted. The parser takes what memory holds at each scan as the
  parameter `uninitialised`. The result depends on it exactly when the text is one that can pass
  (`NameText`) and some port in it is blank; `BlankPortReadsMemory` is such a name. Printed names are not.

## Model

| member | source | states |
|---|---|---|
| Dyadic.FlipBitMoves | src/kernel/memory/buddy.c:73-81 | flipping bit k is its own inverse and moves an index by exactly 2^k, up if the bit was clear, down if set |
| Dyadic.Laminar | src/kernel/memory/buddy.c:113-173 | two aligned power-of-two ranges are nested or disjoint |
| Dyadic.TrailingZerosUnique | src/kernel/memory/buddy.c:138-145 | an index aligned to 2^k whose bit k is set has exactly k trailing zeros |
| Buddy.Partition | src/kernel/memory/buddy.c:113-173 | every index lies in the block of exactly one head |
| Buddy.BuddyIsHead | src/kernel/memory/buddy.c:154-161 | the buddy of a head is a head of at most the same order, so the release loop's assertion holds |
| Buddy.SplitPoint | src/kernel/memory/buddy.c:138-145 | the upper half of a head is covered and its stale order is the one the split needs |
| Buddy.SplitStep | src/kernel/memory/buddy.c:138-145 | splitting a live block keeps the structure sound, halves that block and frees exactly the upper half |
| Buddy.MergeStep | src/kernel/memory/buddy.c:154-171 | merging with an equal free buddy keeps the structure sound and every other live block as it was |
| Buddy.TakeStep | src/kernel/memory/buddy.c:135-137 | unlinking a free block makes exactly that block live and keeps the structure sound |
| Buddy.PutStep | src/kernel/memory/buddy.c:172-173 | linking a live block that cannot merge frees exactly it and leaves no unmerged pair of buddies |
| Buddy.GrowStep | src/kernel/memory/linearblock.c:168-172 | one more index is one more live block; nothing else changes |
| BuddyTheorems.LiveOrFree | src/kernel/memory/buddy.c:113-173 | every index is under exactly one of a live block or a free block |
| BuddyTheorems.FreeRunIsOneBlock | src/kernel/memory/buddy.c:151-173 | full coalescing: an aligned run of free indices lies inside a single free block |
| BuddyTheorems.LiveDeterminesState | src/kernel/memory/buddy.c:113-173 | canonical form: two sound states with the same live blocks have the same orders and the same free blocks, whatever happened before |
| BuddyTheorems.PushTotal | src/kernel/memory/buddy.c:151-173 | linking a block adds exactly its size to the free total |
| BuddyTheorems.UnlinkTotal | src/kernel/memory/buddy.c:113-149 | unlinking a free block takes exactly its size from the free total |
| BuddyManager.OrderFromSpec | src/kernel/memory/buddy.c:83-89 | the rounded order holds the size and every smaller one does not |
| BuddyManager.CeilAllocateOrder | src/kernel/memory/buddy.c:83-89 | computes the least order that holds the size, or one past the maximum exactly when the size is over the largest block |
| BuddyManager.FailsOnlyWithoutRun | src/kernel/memory/buddy.c:91-101 | the free-list search fails if and only if no aligned run of that size is free |
| BuddyManager.MemoryBlockManager.constructor | src/kernel/memory/buddy.c:196-210 | all blocks start live, of minimal order, with nothing free |
| BuddyManager.MemoryBlockManager.GetBuddy | src/kernel/memory/buddy.c:73-81 | a buddy lies in the array exactly one block size away; there is none only when the next block reaches past the end |
| BuddyManager.MemoryBlockManager.BuddiesPair | src/kernel/memory/buddy.c:73-81 | the buddy differs from the block, and at equal orders its buddy is the block again |
| BuddyManager.MemoryBlockManager.FindFreeBlock | src/kernel/memory/buddy.c:91-101 | returns the head of the first nonempty list from the order up, or nothing when all are empty |
| BuddyManager.MemoryBlockManager.SplitDown | src/kernel/memory/buddy.c:138-145 | halves a block down to the split order while the tail of the carved run stays free |
| BuddyManager.MemoryBlockManager.CarveRun | src/kernel/memory/buddy.c:131-147 | turns one free block into a run of new separately live blocks, the rest stays free, freeSize drops by the run |
| BuddyManager.MemoryBlockManager.AllocateBlock | src/kernel/memory/buddy.c:113-149 | first fit; fails exactly when nothing fits and then changes nothing; otherwise adds exactly the run of fresh disjoint blocks, none for a request of zero bytes, and keeps every invariant |
| BuddyManager.MemoryBlockManager.MergeWithBuddy | src/kernel/memory/buddy.c:162-170 | unlinks the buddy and gives the lower one the next order |
| BuddyManager.MemoryBlockManager.MergeUp | src/kernel/memory/buddy.c:154-171 | merges until the block cannot merge; all other live blocks and the total stay |
| BuddyManager.MemoryBlockManager.ReleaseBlock | src/kernel/memory/buddy.c:151-173 | removes exactly the released block from the live ones, adds its size to freeSize and leaves everything coalesced |
| BuddyManager.MemoryBlockManager.ResetBlockArray | src/kernel/memory/buddy.c:179-189 | back to the state of a new manager with that many blocks |
| LinearBlock.CeilSpec | src/kernel/memory/linearblock.c:88-101 | rounding up gives the next multiple of a power of two |
| LinearBlock.WalkStep | src/kernel/memory/linearblock.c:105-118 | from a covered index the buddy is lower, of larger order and still in the same block |
| LinearBlock.WalkDecides | src/kernel/memory/linearblock.c:105-118 | the walk stops at the head of the block and nowhere else |
| LinearBlock.SweepStep | src/kernel/memory/linearblock.c:267-274 | stepping by the order read after a release skips no live block and does not pass the end |
| LinearBlock.GrowthSuffices | src/kernel/memory/linearblock.c:88-101 | after growing past the next aligned run the retried allocation finds a block |
| LinearBlock.LinearMemoryBlockManager.constructor | src/kernel/memory/linearblock.c:43-63 | all initial blocks are in use |
| LinearBlock.LinearMemoryBlockManager.GetExtendBlockCount | src/kernel/memory/linearblock.c:88-101 | the blocks to add so that an aligned run fits, or 0 exactly when the size or the maximum forbids it |
| LinearBlock.LinearMemoryBlockManager.AppendFreeBlock | src/kernel/memory/linearblock.c:168-172 | one new free block, nothing else |
| LinearBlock.LinearMemoryBlockManager.AllocateOne | src/kernel/memory/linearblock.c:182-185 | an unsplit allocation hands out exactly one block of the rounded order |
| LinearBlock.LinearMemoryBlockManager.LockNew | src/kernel/memory/linearblock.c:198-203 | the block just taken is locked with its size; statuses and live blocks agree again |
| LinearBlock.LinearMemoryBlockManager.AllocateNothing | src/kernel/memory/linearblock.c:177-204 | a request for zero bytes finds a block whenever one is free, locks it and leaves it free, so the invariant is lost and the next request is offered a locked block |
| LinearBlock.LinearMemoryBlockManager.CommitAllocatingLinearBlock | src/kernel/memory/linearblock.c:214-221 | a locked block becomes a block in use |
| LinearBlock.LinearMemoryBlockManager.ReleaseLinearBlock | src/kernel/memory/linearblock.c:223-230 | frees exactly one block and keeps statuses and live blocks in agreement |
| LinearBlock.LinearMemoryBlockManager.IsUsingBlock | src/kernel/memory/linearblock.c:105-118 | the upward walk terminates and reads the status of the unique head that covers the index |
| LinearBlock.LinearMemoryBlockManager.IsReleasableBlock | src/kernel/memory/linearblock.c:121-149 | true exactly for a block in use; the assertions made on the way hold |
| LinearBlock.LinearMemoryBlockManager.LockBlock | src/kernel/memory/linearblock.c:246-247 | a block in use is locked before its pages go |
| LinearBlock.LinearMemoryBlockManager.ResetBlocks | src/kernel/memory/linearblock.c:281 | back to the initial blocks, all in use |
| PhysicalBlock.PhysicalMemoryBlockManager.constructor | src/kernel/memory/physicalblock.c:19-42 | every block starts with one reference |
| PhysicalBlock.PhysicalMemoryBlockManager.AllocatePhysicalBlock | src/kernel/memory/physicalblock.c:56-74 | each block of the new run, and only those, gets its first reference; failure changes no count |
| PhysicalBlock.PhysicalMemoryBlockManager.SetReferences | src/kernel/memory/physicalblock.c:64-70 | the loop over the split size meets every block of the run once and finds its count zero |
| PhysicalBlock.PhysicalMemoryBlockManager.AddPhysicalBlockReference | src/kernel/memory/physicalblock.c:76-94 | one reference more unless the count is at its maximum; blocks outside the range are accepted uncounted |
| PhysicalBlock.PhysicalMemoryBlockManager.ReleasePhysicalBlock | src/kernel/memory/physicalblock.c:96-107 | one reference less; the block is freed exactly when that was the last one |
| Paging.MappedIsCounted | src/kernel/memory/page.c:353-367 | a managed frame with a mapping has a reference, so releasing it never underflows |
| Paging.FailureRestores | src/kernel/memory/page.c:698-772 | if the mappings are back and only page tables were added, every frame that was referenced has the same count |
| Paging.StillCounted | src/kernel/memory/memorymanager.c:131-140 | adding mappings never takes the last reference from a frame |
| Paging.NoPageLeft | src/kernel/memory/page.c:708-711 | a single page is refused exactly when no frame is left: every index is under a block handed out |
| Paging.LiveDisjoint | src/kernel/memory/buddy.c:113-149 | live blocks never overlap |
| Paging.TakenWasSpare | src/kernel/memory/buddy.c:131-147 | a frame just handed out was counted as left before and is not afterwards |
| Paging.RunSpareLess | src/kernel/memory/page.c:732-733 | a run of n frames takes exactly n from those left |
| Paging.TablesOne | src/kernel/memory/page.c:296-319 | one more page needs one more page table exactly when neither the directory nor an earlier page of the range has it |
| Paging.SpentAll | src/kernel/memory/page.c:698-723 | once a page of a range cannot be had, the frames left at the start were too few for that page, and so for the whole range |
| Paging.HasTable | src/kernel/memory/page.c:338-367 | a mapped page always has a page table, so the assertions about it hold |
| Paging.Memory.constructor | src/kernel/memory/page.c:416-436 | with the page tables of the boot and nothing mapped in them every count is a boot-time reference |
| Paging.Memory.TakeReference | src/kernel/memory/linearblock.c:300-303 | the count and the outstanding reservations rise together, unless the count is at its maximum |
| Paging.Memory.DropReference | src/kernel/memory/memorymanager.c:164-166 | the count and the outstanding reservations fall together; the frame is left again exactly when that was its last reference |
| Paging.Memory.SetPage | src/kernel/memory/page.c:281-336 | enters one mapping with its attributes and passes the reference on to it; it fails exactly when a page table is missing and no frame is left for one, and then changes nothing; otherwise a new table takes exactly one frame |
| Paging.Memory.InvalidatePage | src/kernel/memory/page.c:338-351 | only the present flag of one entry changes; its frame stays in it |
| Paging.Memory.ReleaseInvalidatedPage | src/kernel/memory/page.c:353-367 | ends the mapping together with its reference and leaves frame number and flags in the entry |
| Paging.Memory.UnmapPage | src/kernel/memory/page.c:573-594 | both top-down loops together clear exactly the range, conserving every count, and leave exactly its frame numbers behind |
| Paging.Memory.UndoMapped | src/kernel/memory/page.c:769-771 | undoing a partial mapping restores the table and leaves numbers only inside the range |
| Paging.Memory.Map1Page_LP | src/kernel/memory/page.c:682-696 | maps one page with a reference of its own; it fails exactly when the count is at its maximum or the page table cannot be had, and then leaves only page tables behind |
| Paging.Memory.MapPage_LP | src/kernel/memory/page.c:754-772 | maps page i to frame f + i for the whole range and takes exactly the page tables it needs, or undoes every mapping; it fails exactly when one of the frames has all the references it can have or too few frames are left for the page tables |
| Paging.Memory.MapTaken | src/kernel/memory/memorymanager.c:135-137 | one page is mapped to a reserved frame and the reservation given back, so one reference stays; it fails exactly when the frame can take no second reference or the page table cannot be had |
| Paging.Memory.MapFreshPage | src/kernel/memory/page.c:707-715 | maps one page to a frame nobody referred to; it fails exactly when the frames left are fewer than one plus its missing page table, and then changes nothing |
| Paging.Memory.MapPage_L | src/kernel/memory/page.c:698-723 | maps the range to distinct frames nobody referred to, or undoes every mapping; it succeeds exactly when the frames left suffice for its pages and the page tables they need, and takes exactly those |
| Paging.Memory.AllocateRun | src/kernel/memory/page.c:732-733 | a run of fresh frames with one reference each; it fails exactly when no aligned run is free, and then changes nothing |
| Paging.Memory.MapRun | src/kernel/memory/page.c:734-741 | maps frames of the run in order and stops at the first failure with the rest still in hand; it gets through exactly when the frames left suffice for the page tables |
| Paging.Memory.UndoContiguous | src/kernel/memory/page.c:743-751 | gives back the frames in hand and the mapped ones, leaving only page tables behind |
| Paging.Memory.MapContiguousPage_L | src/kernel/memory/page.c:725-752 | maps the range to consecutive fresh frames, or undoes everything; it succeeds exactly when an aligned run is free and the frames left suffice for pages and page tables |
| MemoryManager.FreshRange | src/kernel/memory/memorymanager.c:81-83 | the pages of a block just reserved are unmapped, which is what makes mapping them safe |
| MemoryManager.MappedAfterUnmap | src/kernel/memory/memorymanager.c:153-157 | unmapping one block's pages leaves the pages of all other blocks in use mapped |
| MemoryManager.UsingIsFound | src/kernel/memory/linearblock.c:294-299 | a mapped page of a block in use is found under that block's head |
| MemoryManager.InUseMappedIff | src/kernel/memory/linearblock.c:182-203 | a page under a block in use is mapped if and only if it lies within the size asked for |
| MemoryManager.PageCases | src/kernel/memory/linearblock.c:292-298 | a page is under no block in use, or mapped and asked for, or unmapped and in a tail |
| MemoryManager.TailPageExists | src/kernel/memory/linearblock.c:294-298 | a block of three pages whose fourth page is in use and not mapped |
| MemoryManager.PageVerdict | src/kernel/memory/linearblock.c:292-303 | a page asked for always has a table and a referenced frame and fails the assertion exactly when its flags lack an attribute asked for; a tail page fails it whenever presence is asked for; nothing fails it when no attribute is |
| MemoryManager.TailShowsLeftover | src/kernel/memory/page.c:267-276 | a tail page passing for frame 0, one passing for an earlier block's frame or failing on it, and a mapped read-only page failing the assertion |
| MemoryManager.InUseNotLocked | src/kernel/memory/memorymanager.c:130-140 | no page in use lies in a locked block, so filling the new block never touches the source |
| MemoryManager.ShownSameIff | src/kernel/memory/memorymanager.c:130-143 | a block filled from a range shows that range's frames if and only if no page of it is in a tail |
| MemoryManager.FullIsUsedUp | src/kernel/memory/memorymanager.c:131-137 | a frame that refuses a reference got there through those it had and the pages of the range that show it |
| MemoryManager.RecordStep | src/kernel/memory/linearblock.c:156-167 | the record of the next block needs at most one page, exactly when it reaches past the last one mapped |
| MemoryManager.RecordsGone | src/kernel/memory/linearblock.c:277-280 | the range unmapped at the end is exactly what growth has mapped |
| MemoryManager.GrowthJoin | src/kernel/memory/linearblock.c:157-173 | growing twice is growing once: fresh frames, other mappings untouched |
| MemoryManager.GrowthKeepsCounts | src/kernel/memory/linearblock.c:153-175 | growing changes no count of a frame that had references |
| MemoryManager.KeptAfter | src/kernel/memory/memorymanager.c:90-92 | a failed call leaves every frame that was referred to with the references it had |
| MemoryManager.PaidJoin | src/kernel/memory/linearblock.c:157-173 | what growth takes adds up: pages of records plus the page tables they need |
| MemoryManager.PaidShort | src/kernel/memory/linearblock.c:163-166 | when growth stops, the frames left at its start were too few for all of it |
| MemoryManager.LinearMemoryManager.constructor | src/kernel/memory/memorymanager.c:362-385 | a manager over parts that agree |
| MemoryManager.LinearMemoryManager.AddBlock | src/kernel/memory/linearblock.c:157-173 | one more free block with its record mapped, or nothing; then the record needs a page and the frames left do not suffice for it and its page table |
| MemoryManager.LinearMemoryManager.ExtendLinearBlock | src/kernel/memory/linearblock.c:153-175 | appends free blocks as far as frames for their records go, and all of them exactly when the frames left suffice for the pages of the records and their page tables; live blocks, statuses, sizes and other mappings stay, and exactly the pages the records need are mapped and paid for |
| MemoryManager.LinearMemoryManager.GrowFor | src/kernel/memory/linearblock.c:186-193 | growing far enough makes the retried allocation find a block; it succeeds exactly when the size and the maximum allow it and the frames left cover its price |
| MemoryManager.LinearMemoryManager.AllocateLinearBlock | src/kernel/memory/linearblock.c:177-212 | adds one locked block and leaves all others alone; it succeeds exactly when a block fits, or the arena may grow and the frames left cover the price of growing, which is then what it takes; it grows only if nothing fits |
| MemoryManager.LinearMemoryManager.ReserveBlock | src/kernel/memory/memorymanager.c:78-80 | a reserved block has all its pages unmapped; blocks in use keep theirs; besides records of new blocks nothing is mapped; it succeeds exactly when the allocation of the block does |
| MemoryManager.LinearMemoryManager.Commit | src/kernel/memory/memorymanager.c:87-88 | with its pages mapped the block is in use and pages and blocks agree again |
| MemoryManager.LinearMemoryManager.Abort | src/kernel/memory/memorymanager.c:90-92 | giving the block back restores the live blocks |
| MemoryManager.LinearMemoryManager.MapPages | src/kernel/memory/memorymanager.c:74-94 | all pages map the consecutive frames, or live blocks, every referenced frame's count and all mappings except records of new blocks are as before; it succeeds exactly when a block can be had, no frame has all the references it can have and the frames left cover growth and page tables |
| MemoryManager.LinearMemoryManager.MapFresh | src/kernel/memory/memorymanager.c:231-237 | fills the block with fresh frames of its own, consecutive ones when asked, or undoes everything; it fails exactly for want of frames, or of an aligned run when asked for one |
| MemoryManager.LinearMemoryManager.AllocatePages | src/kernel/memory/memorymanager.c:226-247 | all pages get fresh distinct frames, consecutive ones when asked, or everything is as before; it succeeds exactly when a block can be had and the frames left cover growth, pages and page tables, and, for consecutive frames, an aligned run is free once the arena has grown |
| MemoryManager.LinearMemoryManager.UnmapPages | src/kernel/memory/memorymanager.c:153-157 | clears exactly the pages of the block and frees it; exactly their frame numbers stay in the page table |
| MemoryManager.LinearMemoryManager.UnmapBlock | src/kernel/memory/linearblock.c:245-255 | the same for a locked block |
| MemoryManager.LinearMemoryManager.CheckAndReleaseLinearBlock | src/kernel/memory/linearblock.c:232-260 | releases block and pages exactly when the address is that of a block in use; otherwise nothing changes |
| MemoryManager.LinearMemoryManager.ReleaseAllBlocks | src/kernel/memory/linearblock.c:264-275 | with no block locked the sweep ends exactly at the block count with every index free and the whole address space unmapped |
| MemoryManager.LinearMemoryManager.ReleaseAllLinearBlocks | src/kernel/memory/linearblock.c:264-282 | afterwards neither the space nor the records of its grown blocks map anything, every other table is as before, and the arena is back to its initial blocks |
| MemoryManager.LinearMemoryManager.SaysOfPage | src/kernel/memory/linearblock.c:284-307 | the verdict on a page of this manager, from the blocks alone |
| MemoryManager.LinearMemoryManager.CheckAndTranslateBlock | src/kernel/memory/linearblock.c:284-315 | refuses exactly a page under no block in use; halts at `page.c:268` exactly without a page table, at `linearblock.c:299` exactly when the entry lacks an attribute asked for, at `physicalblock.c:84` exactly when its frame is managed and has no reference, at `linearblock.c:302` exactly at the maximum count; otherwise gives the entry's frame, with a reference when asked |
| MemoryManager.LinearMemoryManager.CheckAndTranslatePage | src/kernel/memory/linearblock.c:309-311 | gives whatever the entry of a page in use holds, mapped or not, and takes no reference |
| MemoryManager.LinearMemoryManager.MapExistingPage | src/kernel/memory/memorymanager.c:132-139 | one page is mapped to the frame its source entry holds and the reservation given back, or nothing is mapped; it is mapped exactly when the source page passes, the frame can take one reference beside the reservation and the page table can be had |
| MemoryManager.LinearMemoryManager.MapExistingRun | src/kernel/memory/memorymanager.c:130-140 | maps what the source entries held at the start, in order, until a page fails; a page that passes fails only when its frame is used up or too few frames are left for page tables; source and destination stay consistent throughout |
| MemoryManager.LinearMemoryManager.SourceKept | src/kernel/memory/memorymanager.c:130-140 | a source page is judged by what its entry held at the start, also when source and destination are one space |
| MemoryManager.LinearMemoryManager.AbortMapped | src/kernel/memory/memorymanager.c:146-148 | the pages mapped so far and the block are undone |
| MemoryManager.LinearMemoryManager.ReserveFor | src/kernel/memory/memorymanager.c:119-130 | reserving the new block leaves the source consistent and what is in use there the same |
| MemoryManager.LinearMemoryManager.ShowExisting | src/kernel/memory/memorymanager.c:130-150 | a reserved block shows all source pages and is committed, or is given back, or the loop stands at the first page that fails an assertion |
| MemoryManager.StopsSame | src/kernel/memory/memorymanager.c:119-140 | reserving the new block changes no verdict on the source range |
| MemoryManager.LinearMemoryManager.CheckAndMapExistingPages | src/kernel/memory/memorymanager.c:119-151 | the new block shows what the source's entries held, page by page, which are the source's frames if and only if no page of the range is in a tail; or there is no block, exactly when none can be had; or everything is undone after the first page refused, which was not in use, or whose frame was used up, or for which too few frames were left; or it halts at the first page that fails an assertion, with the reason; source and destination may be the same manager |
| TcpSequence.AddSeqOf | src/kernel/io/network/tcp.c:75-77 | adding to a sequence number follows the stream position across wrap-around |
| TcpSequence.DiffSeqOf | src/kernel/io/network/tcp.c:71-73 | the difference of two sequence numbers is the distance of the positions when it is under 2^32 |
| TcpSequence.SlotsDistinctIffDivides | src/kernel/io/network/tcp.c:369-386 | no two sequence numbers of one window share a ring slot if and only if the window size divides 2^32 |
| TcpSequence.NonDivisorSharesSlot | src/kernel/io/network/tcp.c:369-386 | for any other size two numbers around the wrap share a slot |
| TcpReassembly.StoreSpec | src/kernel/io/network/tcp.c:388-403 | a segment overwrites exactly the positions it covers inside the window |
| TcpReassembly.ExtendSpec | src/kernel/io/network/tcp.c:404-414 | the readable prefix ends at the limit or at the first missing byte |
| TcpReassembly.ArriveKeeps | src/kernel/io/network/tcp.c:388-415 | a segment keeps the window order, never moves the acknowledged position or the right edge back, and leaves the longest readable prefix |
| TcpReassembly.FinKeeps | src/kernel/io/network/tcp.c:842-853 | a FIN keeps the window order; the acknowledged position moves back exactly when the FIN cuts off more than one acknowledged byte |
| TcpReassembly.FinMovesBack | src/kernel/io/network/tcp.c:842-853 | a window and a FIN for which the acknowledged number does move back |
| TcpReassembly.FinishReachedIff | src/kernel/io/network/tcp.c:840-853 | the entry assertion survives a FIN exactly when the FIN does not overtake missing data |
| TcpReassembly.FinRecorded | src/kernel/io/network/tcp.c:842-853 | a FIN inside the window is recorded unless one is, and counts as acknowledged at once exactly when it leaves no gap; any other changes nothing |
| TcpReassembly.StaysLongest | src/kernel/io/network/tcp.c:388-467 | segments, FINs and readers keep the readable prefix as long as the bytes held allow |
| TcpReassembly.FinishStaysReached | src/kernel/io/network/tcp.c:388-459 | data and readers never break the entry assertion |
| TcpReassembly.FinOvertakesData | src/kernel/io/network/tcp.c:840 | a window and a FIN that break the entry assertion |
| TcpReassembly.ConsumeKeeps | src/kernel/io/network/tcp.c:446-458 | reading moves the right edge forward and the acknowledged position not at all |
| TcpServe.ServeIsPrefix | src/kernel/io/network/tcp.c:443-459 | readers together get exactly the next bytes in order, each but the last as many as it asked for; one is left waiting only when nothing is readable |
| TcpReceive.IndexDistinct | src/kernel/io/network/tcp.c:369-386 | positions of one window have different slots |
| TcpReceive.TCPReceiveWindow.constructor | src/kernel/io/network/tcp.c:323-347 | an empty window at the first expected number |
| TcpReceive.TCPReceiveWindow.GetReceiveACK | src/kernel/io/network/tcp.c:356-367 | the number sent denotes the acknowledged position, the FIN included exactly when it is reached; number plus size is the right edge, one more once the FIN counts |
| TcpReceive.TCPReceiveWindow.SetReceiveData | src/kernel/io/network/tcp.c:369-373 | fills one position and disturbs no other |
| TcpReceive.TCPReceiveWindow.HasReceiveData | src/kernel/io/network/tcp.c:375-377 | tells whether the position of that number is held |
| TcpReceive.TCPReceiveWindow.UnsetReceiveData | src/kernel/io/network/tcp.c:379-386 | returns and clears one position; its assertion holds |
| TcpReceive.TCPReceiveWindow.StoreSegment | src/kernel/io/network/tcp.c:392-403 | the copy loop stores exactly the in-window bytes |
| TcpReceive.TCPReceiveWindow.ExtendReadable | src/kernel/io/network/tcp.c:404-414 | the second loop extends the readable prefix as far as possible and counts the growth |
| TcpReceive.TCPReceiveWindow.CopyReceiveWindow | src/kernel/io/network/tcp.c:388-415 | the ring after a segment is the reassembly function applied to the ring before |
| TcpReceive.TCPReceiveWindow.EntryHolds | src/kernel/io/network/tcp.c:840 | the modular comparison of the assertion says exactly that a recorded FIN has no missing byte before it |
| TcpReceive.TCPReceiveWindow.ReceiveFin | src/kernel/io/network/tcp.c:842-853 | the first FIN in the window is recorded and cuts the readable prefix; one outside it, or a second one, changes nothing |
| TcpReceive.TCPReceiveWindow.PushReceiveBuffer | src/kernel/io/network/tcp.c:417-425 | a reader joins at the end |
| TcpReceive.TCPReceiveWindow.ServeReaders | src/kernel/io/network/tcp.c:445-459 | every completed reader gets what the serving function says |
| TcpReceive.TCPReceiveWindow.CopyOut | src/kernel/io/network/tcp.c:447-457 | moves the oldest bytes out and slides the window |
| TcpReceive.TCPReceiveWindow.CopyReceiveBuffer | src/kernel/io/network/tcp.c:443-467 | readers are drained empty-handed exactly when the window stands at the FIN |
| TcpTransmit.TCPTransmitWindow.constructor | src/kernel/io/network/tcp.c:517-530 | an empty window with its initial sizes |
| TcpTransmit.TCPTransmitWindow.PushTransmitBuffer | src/kernel/io/network/tcp.c:532-546 | appends the data, or the FIN, to the written stream; without memory nothing changes |
| TcpTransmit.TCPTransmitWindow.PopTransmitBuffer | src/kernel/io/network/tcp.c:548-558 | drops an acknowledged buffer and moves a cursor that stood in it to the next |
| TcpTransmit.TCPTransmitWindow.GetTransmitRemainSize | src/kernel/io/network/tcp.c:564-571 | what the remote window and the written data still allow |
| TcpTransmit.TCPTransmitWindow.AddTransmitSequence | src/kernel/io/network/tcp.c:573-579 | the cursor advances inside its buffer and enters the next one exactly at the end |
| TcpTransmit.TCPTransmitWindow.RollbackTransmitSequence | src/kernel/io/network/tcp.c:581-585 | the cursor returns to the oldest unacknowledged position |
| TcpTransmit.TCPTransmitWindow.CopyTransmitBuffer | src/kernel/io/network/tcp.c:587-601 | copies exactly the written stream from the cursor, as much as allowed, stopping only before a FIN |
| TcpTransmit.TCPTransmitWindow.AckTransmitWindow | src/kernel/io/network/tcp.c:603-627 | moves the base to the acknowledged position or ignores the number and changes nothing; buffers go up to the last boundary at or before it; the cursor stays unless its buffer went, so it ends behind the base exactly when it was before the acknowledged position and that is no boundary |
| TcpTransmit.BaseIsLast | src/kernel/io/network/tcp.c:611-619 | the first buffer left starts at the last boundary at or before the base |
| TcpTransmit.AckPassesCursor | src/kernel/io/network/tcp.c:581-627 | after an acknowledgement inside the first buffer the cursor is behind the base and nothing is sent; the acknowledgement that finishes that buffer brings it to the next |
| TcpTransmit.SentTwoBuffers | src/kernel/io/network/tcp.c:532-579 | the history before that: two buffers written and sent, then a rollback |
| TcpTransmit.FarAckIgnored | src/kernel/io/network/tcp.c:603-610 | with 65536 bytes in flight the acknowledgement of all of them changes nothing |
| TcpTransmit.SentWhole | src/kernel/io/network/tcp.c:673-704 | the history before that: one buffer sent segment by segment into a scaled window |
| TcpTransmit.TCPTransmitWindow.ReceiveACK | src/kernel/io/network/tcp.c:825-833 | the same, and the advertised window replaces the old one in any case |
| TcpTransmit.TCPTransmitWindow.AckHead | src/kernel/io/network/tcp.c:611-619 | one round of that loop: at most the head buffer goes, the cursor moves only with it; it terminates because a buffer goes or the rest shrinks |
| TcpTransmit.TCPTransmitWindow.TransmitFIN | src/kernel/io/network/tcp.c:706-733 | sends the FIN at its own position and moves past it |
| TcpTransmit.TCPTransmitWindow.TransmitData | src/kernel/io/network/tcp.c:673-704 | a segment carries the written stream from its number inside the remote window, as much as window, buffer and segment size allow unless it stops before a FIN |
| TcpTransmit.TCPTransmitWindow.MakePacket | src/kernel/io/network/tcp.c:747-757 | the next packet is the FIN exactly when the cursor stands at it, else data from the cursor as far as window and sizes allow; behind the base it is bare and nothing moves |
| TcpTransmit.TCPTransmitWindow.TransmitTCP | src/kernel/io/network/tcp.c:736-771 | terminates; packets follow each other without gap inside the window and account for the cursor's advance, a failed last one included; it succeeds exactly when every packet was accepted, and then nothing that may be sent is left unsent, a FIN behind an empty write excepted; a FIN at the cursor goes first; with nothing due nothing is sent unless told to transmit; behind the base nothing moves and at most one bare packet goes out, only when told to transmit |
| TcpTransmit.EmptyWriteDelaysFin | src/kernel/io/network/tcp.c:587-601 | after an empty write a FIN is not sent by the call that could, but by the next one |
| TcpEndToEnd.StepKeeps | src/kernel/io/network/tcp.c:388-627 | every step of sender, network and receiver keeps the connection invariant |
| TcpEndToEnd.RunKeepsInv | src/kernel/io/network/tcp.c:388-627 | so does every run |
| TcpEndToEnd.StepAdvances | src/kernel/io/network/tcp.c:356-467 | no step moves the acknowledged position or the advertised right edge back |
| TcpEndToEnd.NeverRetreats | src/kernel/io/network/tcp.c:356-467 | so they never move back over any part of any run |
| TcpEndToEnd.StepReaches | src/kernel/io/network/tcp.c:836-862 | a step breaks the entry assertion exactly when it is a FIN overtaking missing data |
| TcpEndToEnd.EntryHoldsIff | src/kernel/io/network/tcp.c:836-862 | over every run the assertion holds throughout if and only if no FIN overtakes missing data |
| TcpEndToEnd.RunHears | src/kernel/io/network/tcp.c:388-862 | over every run the readable prefix is as long as the bytes held allow, and a recorded FIN stays where it is |
| TcpEndToEnd.FinIsHeard | src/kernel/io/network/tcp.c:842-853 | a FIN that arrived inside the window is recorded in every later state, and is acknowledged as soon as every byte before it has arrived |
| TcpEndToEnd.AcknowledgedIff | src/kernel/io/network/tcp.c:356-415 | the FIN is acknowledged if and only if no byte before it is missing |
| TcpEndToEnd.EndToEndSafety | src/kernel/io/network/tcp.c:388-467 | in every run the bytes delivered are a prefix of the bytes written; readers are drained only after every byte before the FIN; what counts as acknowledged was received |
| TcpProgress.CatchUp | src/kernel/io/network/tcp.c:356-627 | an acknowledgement, a rollback and a read level sender and receiver |
| TcpProgress.SendsNext | src/kernel/io/network/tcp.c:388-415 | on a level, the next byte or FIN moves the acknowledged position once it arrives |
| TcpProgress.CanFinish | src/kernel/io/network/tcp.c:356-862 | from every state with the acknowledged position in reach, one-item packets from the base suffice to deliver and acknowledge everything written and to report the end |
| TcpProgress.NoDeadEnd | src/kernel/io/network/tcp.c:356-862 | so no moment of any run with at most 65535 bytes unacknowledged is a dead end, whatever was lost, repeated or reordered |
| TcpProgress.NeverAcknowledged | src/kernel/io/network/tcp.c:603-610 | once every new acknowledgement is more than 65535 ahead, the base never moves again in any continuation |
| TcpProgress.BaseMovesIff | src/kernel/io/network/tcp.c:603-627 | with something new to acknowledge the base can move if and only if that is not so |
| TcpConnection.SendRun | src/kernel/io/network/tcp.c:736-771 | packets made one after another are a run of send steps, a failed write being a lost packet |
| TcpConnection.Connection.constructor | src/kernel/io/network/tcp.c:323-530 | two empty windows that agree on the first sequence number |
| TcpConnection.Connection.Safety | src/kernel/io/network/tcp.c:388-627 | after any calls on the real ring and the real buffer list: delivered is a prefix of written, drained means all delivered, acknowledged means received, every packet made carries the written stream |
| TcpConnection.Connection.Write | src/kernel/io/network/tcp.c:532-546 | pushing a buffer is one write step of the run |
| TcpConnection.Connection.Close | src/kernel/io/network/tcp.c:532-546 | pushing the FIN is one close step |
| TcpConnection.Connection.Transmit | src/kernel/io/network/tcp.c:736-771 | transmitting is a run of send steps, also when a write fails; when all is accepted nothing that may be sent is left |
| TcpConnection.Connection.Rollback | src/kernel/io/network/tcp.c:581-585 | one rollback step |
| TcpConnection.Connection.ReceiveSegment | src/kernel/io/network/tcp.c:836-862 | any packet made earlier, arriving any number of times in any order, is one arrival step on the ring; it reports whether the entry assertion held and says exactly when it will hold next |
| TcpConnection.Connection.SendACK | src/kernel/io/network/tcp.c:356-367 | the number sent is that of the acknowledged position, and number plus size that of the advertised right edge |
| TcpConnection.Connection.ReceiveACK | src/kernel/io/network/tcp.c:825-833 | any acknowledgement sent earlier advances the base by exactly what it covers, or by nothing |
| TcpConnection.Connection.Deliver | src/kernel/io/network/tcp.c:443-467 | readers together get exactly the bytes that count as delivered, and all are drained at the FIN |
| SynQueue.WithoutFlowSpec | src/kernel/io/network/tcp.c:1603-1621 | removing a flow from a queue with one request a flow removes at most one and keeps the others in order |
| SynQueue.WithoutFlowOrder | src/kernel/io/network/tcp.c:1603-1621 | the requests of other flows keep their order |
| SynQueue.TCPListener.FindWaiter | src/kernel/io/network/tcp.c:1643-1650 | the earliest waiter the request matches, or none |
| SynQueue.TCPListener.PopDuplicatedSYN | src/kernel/io/network/tcp.c:1603-1621 | removes exactly the queued request of the same flow and nothing else |
| SynQueue.TCPListener.AddSYN | src/kernel/io/network/tcp.c:1638-1672 | the request goes to the earliest matching waiter or replaces its duplicate at the end, pushing out the oldest of ten; requests queued, handed over and dropped add up; count, flows and waiters stay consistent |
| SynQueue.TCPListener.WaitSYN | src/kernel/io/network/tcp.c:1704-1728 | takes the oldest matching request, or waits with none matching |
| TaskQueues.TaskQueue.Push | src/kernel/task/taskmanager.c:119-131 | appends to the ring, links in both directions intact |
| TaskQueues.TaskQueue.Pop | src/kernel/task/taskmanager.c:133-150 | takes the oldest task out of the ring and unlinks it |
| TaskQueues.TaskPriorityQueue.Push | src/kernel/task/taskmanager.c:152-154 | appends to the queue of the pushed task's priority and to no other |
| TaskQueues.TaskPriorityQueue.BestQueue | src/kernel/task/taskmanager.c:157-163 | the search loop stops at the first nonempty queue |
| TaskQueues.TaskPriorityQueue.Pop | src/kernel/task/taskmanager.c:156-164 | takes the oldest task of the best nonempty priority and never looks past the last one |
| Scheduler.StepPlaces | src/kernel/task/taskmanager.c:119-202 | a step moves tasks between places but neither copies nor loses one |
| Scheduler.RunningIsNowhereElse | src/kernel/task/taskmanager.c:180-202 | a running task is in no queue and on no other processor |
| Scheduler.HandUnqueued | src/kernel/task/exclusivelock.c:60-72 | a task taken off a semaphore and not yet resumed is in no queue |
| Scheduler.LeftUnqueued | src/kernel/task/taskmanager.c:168-178 | a task just left and not yet put away is in no queue |
| Scheduler.DispatchIsBest | src/kernel/task/taskmanager.c:156-164 | what is started has the best ready priority and became ready first among those |
| Scheduler.SwitchNeverStarves | src/kernel/task/taskmanager.c:180-202 | a processor that leaves an ordinary task finds a ready one, because the others cannot run all bootstrap tasks |
| Scheduler.SettlePlaces | src/kernel/task/taskmanager.c:168-178 | the deferred action puts the old task into its queue exactly once |
| Scheduler.ReleasePlaces | src/kernel/task/exclusivelock.c:60-105 | releasing hands the oldest waiter over, or raises the quota |
| Scheduler.StepKeepsSems | src/kernel/task/exclusivelock.c:22-105 | exactly a processor on its way into a wait queue holds that semaphore's lock, and waiting implies no quota |
| Scheduler.StepKeeps | src/kernel/task/taskmanager.c:119-202 | every step of every processor keeps all invariants |
| Scheduler.SchedulerSafety | src/kernel/task/taskmanager.c:119-202 | in every run each task is in exactly one place, there is always something to switch to, a semaphore waited for has no quota, and its lock is free exactly when nobody is on the way into its queue |
| Scheduler.NeverStuck | src/kernel/task/taskmanager.c:168-202 | in every reachable state every processor can take its own next step |
| Scheduler.LockFreeIff | src/kernel/task/exclusivelock.c:22-105 | a semaphore's lock is free if and only if no processor is on the way into its queue |
| Scheduler.LockIsLetGo | src/kernel/task/exclusivelock.c:30-93 | whoever is on the way lets the lock go by at most two steps of its own and is then in the queue |
| Scheduler.CanRelease | src/kernel/task/exclusivelock.c:60-105 | a semaphore nobody is on the way into can be released: the longest waiter is in hand or the quota rises |
| Scheduler.CanResume | src/kernel/task/taskmanager.c:611-617 | whoever is in hand can be made ready |
| SchedulerObject.RingsApart | src/kernel/task/taskmanager.c:119-150 | rings that hold what a state says share no task, so relinking one leaves the others whole |
| SchedulerObject.PushHolds | src/kernel/task/taskmanager.c:152-154 | a push into the real ready queues is the push of the state |
| SchedulerObject.PopHolds | src/kernel/task/taskmanager.c:156-164 | a pop takes what the state says, the oldest of the best priority |
| SchedulerObject.WaitHolds | src/kernel/task/exclusivelock.c:91-93 | linking a task into a waiting ring is the append of the state |
| SchedulerObject.WakeHolds | src/kernel/task/exclusivelock.c:95-105 | unlinking the oldest waiter is the removal of the state |
| SchedulerObject.Machine.constructor | src/kernel/task/taskmanager.c:640-662 | one bootstrap task runs on each processor, all rings are empty: the start of a run |
| SchedulerObject.Machine.Safety | src/kernel/task/taskmanager.c:119-202 | after any calls on the real rings the run's invariant holds, no task is in two rings, and a running task is in none and on no other processor |
| SchedulerObject.Machine.Yield | src/kernel/task/taskmanager.c:180-202 | the switch without a deferred action is one yield step on the rings |
| SchedulerObject.Machine.Leave | src/kernel/task/taskmanager.c:180-202 | the switch with one, to block or to end, always finds a ready task and is one step |
| SchedulerObject.Machine.Settle | src/kernel/task/taskmanager.c:168-178 | the deferred action links what was left at the end of its queue, frees the semaphore's lock, and is one step |
| SchedulerObject.Machine.Acquire | src/kernel/task/exclusivelock.c:30-89 | takes one of the quota, or keeps the lock to block, exactly by whether the quota is positive |
| SchedulerObject.Machine.Release | src/kernel/task/exclusivelock.c:60-105 | hands out the longest waiter, or raises the quota when nobody waits |
| SchedulerObject.Machine.Resume | src/kernel/task/taskmanager.c:611-617 | a task in hand is linked into its ready queue, which is one resume step |
| SchedulerObject.Machine.Create | src/kernel/task/taskmanager.c:308-341 | a new task is in hand and in no ring |
| SchedulerObject.Machine.Reap | src/kernel/task/taskmanager.c:523-537 | what ended first leaves its ring and exists no more |
| FifoRing.LowBitsIsMod | src/kernel/io/fifoarray.c:22-25 | masking with a power of two less one is the remainder |
| FifoRing.FIFO.constructor | src/kernel/io/fifoarray.c:107-129 | an empty ring of a power of two elements |
| FifoRing.FIFO.DequeueBuffer | src/kernel/io/fifoarray.c:17-20 | drops the oldest element |
| FifoRing.FIFO.WriteLocked | src/kernel/io/fifoarray.c:27-48 | appends when there is room; otherwise replaces the oldest and reports it, or changes nothing |
| FifoRing.FIFO.ReadLocked | src/kernel/io/fifoarray.c:66-78 | returns the oldest element, removed or not as asked |
| FifoProtocol.StepKeeps | src/kernel/io/fifoarray.c:50-97 | every step between lock and semaphore points keeps the accounting |
| FifoProtocol.FifoSafety | src/kernel/io/fifoarray.c:50-97 | in every run the length is quota plus readers past the semaphore plus writers yet to signal; such a reader finds data; what left plus what is left is what was accepted, in order |
| FifoProtocol.ReadersConserved | src/kernel/task/exclusivelock.c:30-105 | in every run each read begun is blocked, past the semaphore, or has taken an element |
| FifoProtocol.LostOnlyByOverwrite | src/kernel/io/fifoarray.c:58-64 | an element is lost only to an overwrite of a full ring |
| FifoObject.SharedFIFO.constructor | src/kernel/io/fifoarray.c:107-129 | an empty ring at the start of a run |
| FifoObject.SharedFIFO.WritePart | src/kernel/io/fifoarray.c:27-56 | the locked part of a write on the real ring is one step of the run, with a signal owed exactly for a new element |
| FifoObject.SharedFIFO.OverwritePart | src/kernel/io/fifoarray.c:27-64 | the same for an overwrite; what it reports is exactly what is lost |
| FifoObject.SharedFIFO.ReadPart | src/kernel/io/fifoarray.c:66-88 | in every interleaving a reader past the semaphore gets the oldest element, so the blocking read's assertion holds |
| IoWait.StepKeeps | src/kernel/task/taskmanager.c:673-718 | every step of completer and waiter keeps the token accounting |
| IoWait.NoLostWakeup | src/kernel/task/taskmanager.c:696-718 | in every run, a waiter blocked while nobody is about to signal has nothing completed to wait for, after stale tokens were drained too |
| IoWait.PassUsesToken | src/kernel/task/taskmanager.c:696-718 | every further scan uses up a token, so scanning ends |
| IoWait.CompletedIsReturned | src/kernel/task/taskmanager.c:673-718 | in every run each completion is in the completed list or was returned, exactly once, and each request issued is pending, was cancelled or was completed, exactly once |
| IoWait.WaitReturnsWanted | src/kernel/task/taskmanager.c:696-718 | a wait that ends returns one request: the one it asked for, or the most recently completed |
| IoWait.OwnStepNearer | src/kernel/task/taskmanager.c:696-718 | a waiter that is not asleep can always take its next step, and each step brings the end of the wait nearer |
| IoWait.WaitDecides | src/kernel/task/taskmanager.c:696-718 | left alone, a waiter yet to look at the list ends its wait: it returns the most recently completed request it wants if there is one, and otherwise sleeps with no token left |
| IoWait.WaitBegins | src/kernel/task/taskmanager.c:696-705 | a wait can begin whenever none is under way, and left alone it returns exactly if a request it wants is already completed |
| IoWait.CompletionEndsWait | src/kernel/task/taskmanager.c:673-718 | completing a request that a sleeping waiter wants, with its signal, makes the waiter return that request |
| TimerSpec.OneShotExact | src/kernel/io/timer.c:71-83 | an event armed with w ticks completes on exactly the handler call whose tick is the arming tick plus w, if not cancelled |
| TimerSpec.PeriodicExact | src/kernel/io/timer.c:114-141 | a periodic event completes on exactly the first deadline and every period after it |
| TimerSpec.CancelledStays | src/kernel/io/timer.c:29-37 | an event cancelled and not armed again never completes |
| Timer.RemainingTicks | src/kernel/io/timer.c:69-79 | remaining ticks are right across the wrap of the counter |
| Timer.TimerEventList.AddTimerEvent | src/kernel/io/timer.c:71-83 | the insertion loop keeps the list sorted by remaining ticks |
| Timer.TimerEventList.CancelTimerEvent | src/kernel/io/timer.c:29-37 | removes the event, if still listed, and no other |
| Timer.TimerEventList.HandleTimerEvents | src/kernel/io/timer.c:114-141 | completes exactly the due events, each once, re-arms the periodic ones and advances the tick |
| Timer.TimerEventList.HandleHead | src/kernel/io/timer.c:118-137 | one round of that loop; fewer events are due afterwards |
| Timer.AllHandled | src/kernel/io/timer.c:114-141 | when the loop stops nothing due is left, because the list is sorted |
| TimerObject.RunMore | src/kernel/io/timer.c:71-141 | one more step extends the run and the record of what each interrupt completed |
| TimerObject.SharedTimer.constructor | src/kernel/io/timer.c:156-162 | an empty list at the start of a run |
| TimerObject.SharedTimer.SetAlarm | src/kernel/io/timer.c:91-112 | arming an event on the real list is one arm step of the run |
| TimerObject.SharedTimer.CancelAlarm | src/kernel/io/timer.c:29-37 | cancelling is one cancel step |
| TimerObject.SharedTimer.Interrupt | src/kernel/io/timer.c:114-141 | a handler call is one tick step, and what it completes is recorded |
| TimerObject.SharedTimer.Exact | src/kernel/io/timer.c:71-141 | after any calls, what the real list completed: a one-shot alarm on exactly its tick, a periodic one on exactly that tick and every period after it |
| TimerObject.SharedTimer.Cancelled | src/kernel/io/timer.c:29-37 | the same of the real list |
| ResourceSpec.StepKeeps | src/kernel/resource/resource.c:52-260 | adds, deletes, reads, cancels, opens and closes keep the enumeration invariant |
| ResourceSpec.EnumerationSafety | src/kernel/resource/resource.c:79-260 | in every run an enumerator has delivered resources in insertion order, each once; each listed one was delivered or lies from its cursor on, never both; a waiting read means the tail |
| ResourceSpec.WaitingIsQueued | src/kernel/resource/resource.c:146-260 | in every run a read that waits is in the queue of exactly one enumerator, which stands at the tail |
| ResourceSpec.CancelledGetsNothing | src/kernel/resource/resource.c:89-98 | in every run a read marked cancelled gets no resource unless it is issued again |
| ResourceLists.HalfwayServed | src/kernel/resource/resource.c:199-214 | serving one enumerator during an add disturbs no other enumerator's reads |
| ResourceLists.MoveLinked | src/kernel/resource/resource.c:100-106 | relinking moves one enumerator between waiting lists and keeps every list exact |
| ResourceLists.ResourceList.SearchWaitable | src/kernel/resource/resource.c:123-131 | finds a resource with the description if there is one |
| ResourceLists.ResourceList.CreateWaitingIterator | src/kernel/resource/resource.c:53-69 | a new enumerator stands at the first resource, or at the tail |
| ResourceLists.ResourceList.DeleteWaitingIterator | src/kernel/resource/resource.c:71-77 | the enumerator leaves its waiting list |
| ResourceLists.ResourceList.FindRequest | src/kernel/resource/resource.c:89-98 | the first read that was not cancelled |
| ResourceLists.ResourceList.IterateNext | src/kernel/resource/resource.c:79-107 | moves past the resource, delivering it to the first live read when asked, or stays when there is none |
| ResourceLists.ResourceList.AppendResource | src/kernel/resource/resource.c:187-197 | the first loop moves every enumerator from the tail to the new resource |
| ResourceLists.ResourceList.ServeWaiting | src/kernel/resource/resource.c:198-214 | the second loop serves everyone with a live read and returns them to the tail |
| ResourceLists.ResourceList.AddWaitable | src/kernel/resource/resource.c:182-225 | both loops together are one add step of the specification; refused exactly when already listed |
| ResourceLists.ResourceList.DeleteResource | src/kernel/resource/resource.c:168-180 | the loop and the unlinking are one delete step |
| ResourceLists.ResourceList.ReadEnumWaitable | src/kernel/resource/resource.c:240-260 | one read step; a read served at once is the one just queued, as the source asserts |
| ResourceLists.ResourceList.CancelReadEnumWaitable | src/kernel/resource/resource.c:146-152 | a cancelled read leaves its queue |
| Checksum.ChangeEndianInvolutive | src/lib/common.c:97-105 | swapping twice is the identity |
| Checksum.SumAppend | src/kernel/io/network/internet.c:55-76 | the word sum of two pieces is the sum of their word sums when the first is even |
| Checksum.FoldStep | src/kernel/io/network/internet.c:37-39 | one fold keeps the residue modulo 65535 and makes a large sum smaller |
| Checksum.Fold | src/kernel/io/network/internet.c:37-39 | the fold loop terminates and keeps the residue modulo 65535 |
| Checksum.ComplementCancels | src/kernel/io/network/internet.c:37-40 | adding the complement of the folded sum makes the total fold to all ones |
| Checksum.AccumulateWords | src/kernel/io/network/internet.c:60-70 | the 32-bit accumulator holds the exact sum and never wraps |
| UdpIp.CalculateIPHeaderChecksum | src/kernel/io/network/internet.c:30-41 | the value stored is the swapped complement of the folded word sum |
| UdpIp.CalculateIPDataChecksum | src/kernel/io/network/internet.c:44-80 | the same over the data behind the pseudo header of RFC 768: both addresses, a zero byte, the protocol and the length, as bytes |
| UdpIp.PseudoHeaderSum | src/kernel/io/network/internet.c:44-58 | the words added up for the pseudo header are those of its twelve bytes |
| UdpIp.HeaderSums | src/kernel/io/network/internet.c:82-104 | with its checksum stored the header folds to all ones |
| UdpIp.DatagramSums | src/kernel/io/network/udp.c:42-60 | the same for the datagram, and the checksum sent is never zero |
| UdpIp.InitUDPIPPacket | src/kernel/io/network/udp.c:42-60 | the packet's bytes, with both checksums right |
| UdpIp.ValidateIPV4Packet | src/kernel/io/network/internet.c:521-545 | accepts exactly version 4 packets with plausible sizes and a header that folds to all ones |
| UdpIp.ValidateUDPHeader | src/kernel/io/network/udp.c:102-122 | accepts exactly UDP packets whose length matches and whose checksum is absent or right, also when the header is longer than the packet says it is |
| UdpIp.Fields | src/kernel/io/network/udp.c:42-60 | every field read back is the value stored |
| UdpIp.DatagramRoundTrip | src/kernel/io/network/udp.c:42-145 | every payload up to 65507 bytes, with any addresses and ports, passes both validators and comes back, truncated only to the reader's buffer |
| SocketName.UintToString | src/kernel/main/printk.c:5-24 | the digit loops write the shortest decimal text |
| SocketName.StringToUInt | src/kernel/main/printk.c:44-64 | reads the longest digit prefix modulo 2^32, or reports none |
| SocketName.ScanDigits | src/kernel/main/printk.c:44-64 | reading a printed number gives the number and stops behind it |
| SocketName.ScanPrintedAddress | src/kernel/main/printk.c:374-395 | a printed address is read back and the rest left over |
| SocketName.ScanPair | src/kernel/io/network/internet.c:1055-1080 | one printed key and value are consumed exactly |
| SocketName.NameFits | src/kernel/io/network/internet.c:1084-1106 | every name has at most 55 characters, so 64 are enough |
| SocketName.NameRoundTrip | src/kernel/io/network/internet.c:1042-1106 | scanning a printed name into initialised arguments gives the same remote and local address and port |
| SocketName.NamesDistinct | src/kernel/io/network/internet.c:1084-1106 | different arguments print differently |
| SocketName.PortDependsIff | src/kernel/io/network/internet.c:942-950 | the port read is independent of leftover memory if and only if its text is not blank |
| SocketName.NameScans | src/kernel/io/network/internet.c:1042-1082 | a name is accepted only if its text can pass, always if memory holds small numbers, never with a blank port and large ones; without blank ports memory does not matter |
| SocketName.KeyFrame | src/kernel/io/network/internet.c:1006-1038 | a key changes only what it names, and no other key is accepted |
| SocketName.AddressKeySets | src/kernel/io/network/internet.c:1006-1013 | a printed address sets exactly that address, and with a printed port behind it that port too |
| SocketName.PortKeySets | src/kernel/io/network/internet.c:1015-1031 | a printed port sets exactly that port, a device name exactly the device |
| SocketName.NameDependsIff | src/kernel/io/network/internet.c:1042-1082 | the arguments read are independent of memory if and only if the text cannot pass or has no blank port |
| SocketName.BlankPortReadsMemory | src/kernel/io/network/internet.c:942-950 | an address with a bare colon is accepted with whatever was in memory as the port |
| SocketName.PrintAddress | src/kernel/main/printk.c:179-191 | four numbers with dots between them |
| SocketName.PrintIPSocketArguments | src/kernel/io/network/internet.c:1084-1106 | writes the name clipped to the buffer, the whole of it into 64 characters |
| SocketName.ScanIPSocketArguments | src/kernel/io/network/internet.c:1042-1082 | the key and value loop computes the recursive scan |
| Wildcard.IsStringEqual | src/lib/common.c:118-123 | equal lengths and equal characters up to a NUL |
| Common.IndexOf | src/lib/common.c:158-162 | the first position of the character from i on, or the length |
| Common.IndexOfNot | src/lib/common.c:164-168 | the first position of any other character from i on, or the length |
| Wildcard.GlobLiteralPrefix | src/lib/common.c:125-156 | a literal prefix must match in place |
| Wildcard.AcceptsLastLiteral | src/lib/common.c:128-138 | stripping equal last characters keeps acceptance |
| Wildcard.LeftmostIsEnough | src/lib/common.c:139-154 | taking the leftmost occurrence of a literal before a star misses no match |
| Wildcard.SkipOne | src/lib/common.c:144-152 | a position where the literal does not match can be skipped |
| Wildcard.SearchSegments | src/lib/common.c:139-155 | the greedy search accepts exactly when the pattern matches some suffix |
| Wildcard.MatchWildcardString | src/lib/common.c:125-156 | equality without a star; with one, the glob meaning of the pattern with a star put before it |
| Wildcard.FirstLiteralFloats | src/lib/common.c:139-155 | a pattern that accepts what its documented meaning refuses |
| Wildcard.AgreesIff | src/lib/common.c:125-156 | the search has the documented meaning for all strings if and only if the pattern has no star or starts with one |

## Left out

- Drivers, interrupt plumbing, TLB shootdown, assembly and boot code: register input and output has no specification to prove against.
- ReaderWriterLock: `exclusivelock.c:226-232` hands over to a writer without looking at the readers, so mutual exclusion is not an invariant of it.
- Opened-file request counting: a failed request is counted down in two places, so there is no clean counting invariant.
- DHCP, ARP, ELF loading, FAT, partitions, slab, kernelfs and system-call wrappers: they would only add easier members.
- The two-level page-table encoding, recursive page-table mapping, flags set by the processor and CR3 handling: a page table is a map from linear page to frame and flags beside what unmapped entries still hold, page tables are counted from the arena's first page, and page-table frames are references held outside that map.
- The place of the block records in the address space: their pages are a table of their own beside the one of the arena; the pages of the initial records are mapped before and not modelled.
- Assertions: where one can fail the result says so. The memory calls stop there; TcpConnection goes on, as the code does with assertions compiled out, and reports the failure.
- Addresses: frames are numbered from the manager's first frame, which is that of address 0, and frames beyond its range are unmanaged as in the source; linear pages are numbered from the arena's first block.
- MemoryManager.LinearMemoryManager.AllocateLinearBlock: positive sizes; zero bytes are LinearBlock.LinearMemoryBlockManager.AllocateNothing.
- MemoryManager.LinearMemoryManager.AllocatePages: positive sizes, for the same reason.
- BuddyManager.MemoryBlockManager.AllocateBlock: the split size is a block size or at least the size asked for, as all callers pass it.
- Paging.Memory.SetPage: attributes contain the present flag, as `page.c:153` asserts.
- Locks: a region between acquire and release is one atomic step; spin locks and interrupt masking are not modelled.
- The kernel-address redirection in `linearblock.c:288-290` and `memorymanager.c:124-127`: the caller chooses the manager.
- TcpEndToEnd.EndToEndSafety: a segment or acknowledgement delivered 2^32 bytes late could be read as a different position; runs are those in which that does not happen.
- TcpReceive.TCPReceiveWindow.constructor: the window size is at most 65535 and divides 2^32, as the one size in use does; the header field has 16 bits.
- TcpConnection.Connection.constructor: the connection starts after the handshake; the SYN's own sequence number lies before position 0.
- TcpTransmit.TCPTransmitWindow.ReceiveACK: the window is given already scaled, and small enough that unacknowledged data plus window stay within 2^32.
- TcpTransmit.TCPTransmitWindow.PushTransmitBuffer: unacknowledged data plus the remote window stay under 2^32, and nothing is written after a FIN; the list's end marker is never a FIN.
- TcpTransmit.TCPTransmitWindow.TransmitTCP: `writes` says how many packets the device accepts and `bufferSize` how large its buffer is.
- TCP handshake, options, retransmission timing and the retransmission counter: the handshake appears only as the acknowledgement of the SYN's own sequence number.
- SynQueue.TCPListener.WaitSYN: the semaphore a waiter sleeps on is not modelled.
- Timer.TimerEventList.HandleTimerEvents: only timing is modelled, not the suppression of a second completion (`timer.c:80` clears that mark on re-arming).
- Timer.TimerEventList.AddTimerEvent: wait and period are under the tick modulus of 2^50.
- Cancellation of I/O other than the cancel system call on resource reads: those paths do not test the cancellable mark.
- Checksum.ChangeEndianInvolutive: the 32-bit swap is not modelled; addresses are four bytes.
- UdpIp.ValidateUDPHeader: for a total length under 20 the bytes behind the copied packet are given as part of the input.
- SocketName.NameRoundTrip: device bindings are not printed by the model.
- Wildcard.MatchWildcardString: texts without NUL characters, because string comparison stops at one.
- SocketName.ScanIPSocketArguments: a formatted scan that runs off the end of the text counts as a mismatch.
