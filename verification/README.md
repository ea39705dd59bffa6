# Model of a small kernel and its VirtIO drivers

A Dafny model of six parts of an x86-64 operating-system kernel and its VirtIO driver library, with
proofs about whole runs of each. `dafny verify dfyconfig.toml` checks everything; each file under
`src/` is one module.

**Split virtqueue and its clients.** `QueueProtocol` is the queue as a transition system over the
history of a driver and a device that completes chains in any order (section 2.6 of VIRTIO 1.1).
`Descriptors` says what a device reads from descriptor tables. `VirtQueues` is the driver: a class over
the shared arrays, the shadow table with its unterminated free list, indirect tables and 16-bit wrapping
counters; each method is proved to move the represented protocol state by one step. `OwningQueues`,
`Consoles`, `PcmTransfers` and `BlockingRequests` are clients whose invariants depend on how the queue
recycles descriptors. `RingIndex` and `Arithmetic` hold the counter arithmetic.

**Page-frame allocator.** `FrameLists` gives the coalesced block list of a set of frames and shows it is
unique. `FrameAllocators` is the linked list of nodes kept in the free frames themselves, walked and
relinked in place. `Reservations` states exactly when reserving works. `FrameAccounts` follows every
frame over whole runs.

**Page tables.** Table memory is a map from frames to tables of 512 entries; nothing makes it a tree. A
`Layout` (`PageTables`) gives each table frame one place, and that is the invariant that `Paging` keeps
while it maps, unmaps and copies in place. Where a table is missing, unmapping goes on to other pages than
those of the range; `UnmapWalks` says for every range which pages it takes out, `UnmapRanges` exactly when
these are the right ones, and `Unmapping` what follows for tables and frames. `Copying` holds the reasoning
for copies, `PageIndex` the arithmetic of page numbers. `SpaceRuns` is about whole runs over any number
of address spaces, and `UserFrames` follows the frames behind user pages over such runs: whose they are,
that none is freed twice, and exactly when none is lost.

**Virtual memory areas.** `VmaSpaces` is allocation at a fixed address and by gap search;
`VmaInterleavings` lets any number of searches be under way, since a search releases its lock before its
area is entered.

**Scheduler.** `Scheduling` is the transition system, `Schedulers` the operations with their loops.
`ThreadRuns` says what the steps mean for the threads: whom they wait for, until when, and in which order
they go on. `ProcessKills` is about ending the threads of a process, which is not one step: they are listed first and
killed one by one, and other threads may run in between.

**Boot-time regions.** `RegionLists` and `BootRegions`: an array of intervals with merging and cutting.

Conventions. Addresses of frames and pages are frame and page numbers, except for memory areas and boot
regions, which use byte addresses. A Rust panic is a result (`ok == false`, or `None` where so said).
What the device, the clock, the heap and the locks do is a parameter. Loops that wait for the device or
the clock take the sequence of what happens while they wait, and answer that they are still waiting when
it ends.

Where a property of interest does not hold of the code, the code is modelled as it is, a lemma gives an
input on which it fails, and another one says exactly when it holds: `FreeBlock` with
`UnnoticedOverlap`, `ReserveExactly` with `ReserveSkips`, `FixedKeepsApart` with `FixedMayOverlap`,
`ConsiderateExactly` with `FixedBetween` and `EmptyFixedBetween`, `Alloc` with `StraddlerHidesRoom`,
`UnmapExactly` with `OtherPageUnmapped`, `StepOrderly` with `NoPageLeavesTable`, `KillExactly` and
`KillsCleanExactly` with `ListedTooEarly`.

In two places code and comments disagree in a way that matters here, and the model follows the code: the
comment in `alloc_at` speaks of no overlap where only the predecessor is looked at, and unmapping skips
missing tables without skipping their pages.

## Model

| member | source | states |
|---|---|---|
| `RingIndex.SlotIsMod` | project/D3OS-VirtIO-Drivers/os/library/virtio-drivers/src/queue.rs:187-193 | masking the 16-bit wrapped counter with SIZE - 1 gives the unbounded count modulo SIZE, for every power-of-two SIZE up to 32768 |
| `RingIndex.WrapExact` | project/D3OS-VirtIO-Drivers/os/library/virtio-drivers/src/queue.rs:374-378 | two counts at most 32768 apart are equal exactly when their 16-bit counters are, so the wrapping test in can_pop is exact |
| `RingIndex.SlotsDistinct` | project/D3OS-VirtIO-Drivers/os/library/virtio-drivers/src/queue.rs:187-193 | counts less than SIZE apart never share a ring slot |
| `QueueProtocol.SegmentsReadableFirst` | project/D3OS-VirtIO-Drivers/os/library/virtio-drivers/src/queue.rs:812-834 | in the order of the iterator no device-readable buffer follows a writable one |
| `QueueProtocol.OfferInv` | project/D3OS-VirtIO-Drivers/os/library/virtio-drivers/src/queue.rs:155-207 | adding keeps free list and in-flight chains a partition of the descriptors without repetition, keeps live tables at distinct addresses, and keeps every offered chain in exactly one stage |
| `QueueProtocol.AddExactly` | project/D3OS-VirtIO-Drivers/os/library/virtio-drivers/src/queue.rs:160-171 | an add of n buffers is accepted if and only if 1 <= n <= size and the free list holds the descriptors the chain occupies, one in indirect mode and n otherwise; none at all is InvalidParam, every other refusal QueueFull |
| `QueueProtocol.FetchInv` | project/D3OS-VirtIO-Drivers/os/library/virtio-drivers/src/queue.rs:873-882 | the device reading the next available entry keeps that invariant |
| `QueueProtocol.CompleteInv` | project/D3OS-VirtIO-Drivers/os/library/virtio-drivers/src/queue.rs:980-983 | the device completing any chain it has read, in any order, keeps it |
| `QueueProtocol.TakeInv` | project/D3OS-VirtIO-Drivers/os/library/virtio-drivers/src/queue.rs:509-552 | popping the oldest completion finds its chain in flight and keeps the invariant |
| `QueueProtocol.StepInv` | project/D3OS-VirtIO-Drivers/os/library/virtio-drivers/src/queue.rs:155-552 | each driver or device step, allowed of the environment, keeps the invariant |
| `QueueProtocol.RunSafe` | project/D3OS-VirtIO-Drivers/os/library/virtio-drivers/src/queue.rs:155-552 | over every interleaving of adds, pops, device reads and out-of-order completions: the invariant holds, adds minus pops never exceed SIZE, and no history entry is ever rewritten |
| `QueueProtocol.RingBounds` | project/D3OS-VirtIO-Drivers/os/library/virtio-drivers/src/queue.rs:187-206 | popped <= completed <= read <= offered, and both rings hold at most SIZE live entries, so no live slot is overwritten |
| `QueueProtocol.ExactlyOnce` | project/D3OS-VirtIO-Drivers/os/library/virtio-drivers/src/queue.rs:509-552 | every chain ever offered is either popped, once and under its own head, or still in flight, never both |
| `QueueProtocol.PopThenAddReusesToken` | project/D3OS-VirtIO-Drivers/os/library/virtio-drivers/src/queue.rs:417-498 | a pop followed by the add of one buffer hands out the popped token again and leaves the other free descriptors in place |
| `QueueProtocol.PendingRoom` | project/D3OS-VirtIO-Drivers/os/library/virtio-drivers/src/queue.rs:980-983 | a chain being processed leaves a free slot in the used ring |
| `QueueProtocol.OfferRoom` | project/D3OS-VirtIO-Drivers/os/library/virtio-drivers/src/queue.rs:187-206 | while a descriptor is free the available ring has a free slot |
| `QueueProtocol.DeviceRunInv` | project/D3OS-VirtIO-Drivers/os/library/virtio-drivers/src/queue.rs:859-987 | whatever the device does keeps the invariant and leaves the driver side alone |
| `Descriptors.InterpretSegments` | project/D3OS-VirtIO-Drivers/os/library/virtio-drivers/src/queue.rs:886-978 | a device reading descriptors of inputs then outputs gets the inputs concatenated in order and the writable buffers in order |
| `Descriptors.WalkFollows` | project/D3OS-VirtIO-Drivers/os/library/virtio-drivers/src/queue.rs:886-978 | following the links from any point of a laid-out chain visits exactly the rest of its descriptors |
| `Descriptors.DirectChain` | project/D3OS-VirtIO-Drivers/os/library/virtio-drivers/src/queue.rs:209-243 | what a device finds at the head of a direct chain describes exactly the segments added |
| `Descriptors.SameMeaning` | project/D3OS-VirtIO-Drivers/os/library/virtio-drivers/src/queue.rs:209-297 | for all inputs and outputs a direct chain and an indirect table mean the same request to the device: the inputs in order, then the writable buffers in order |
| `VirtQueues.VirtQueue.constructor` | project/D3OS-VirtIO-Drivers/os/library/virtio-drivers/src/queue.rs:77-143 | a new queue represents the empty protocol state: all descriptors free in index order |
| `VirtQueues.NewQueue` | project/D3OS-VirtIO-Drivers/os/library/virtio-drivers/src/queue.rs:77-101 | refuses exactly a queue in use, a size beyond the device, or want of memory, each with its error, and otherwise yields an empty queue |
| `VirtQueues.VirtQueue.CanPopUsed` | project/D3OS-VirtIO-Drivers/os/library/virtio-drivers/src/queue.rs:374-378 | true exactly when a completion has not been taken, although the counters are compared modulo 2^16 |
| `VirtQueues.VirtQueue.PeekUsed` | project/D3OS-VirtIO-Drivers/os/library/virtio-drivers/src/queue.rs:382-391 | the head of the oldest completion not taken, if any |
| `VirtQueues.VirtQueue.AvailableDesc` | project/D3OS-VirtIO-Drivers/os/library/virtio-drivers/src/queue.rs:394-405 | the number of free descriptors in direct mode, and in indirect mode the whole size as long as one is free; an add of n buffers is accepted exactly when 1 <= n <= that answer |
| `VirtQueues.VirtQueue.AddDirect` | project/D3OS-VirtIO-Drivers/os/library/virtio-drivers/src/queue.rs:209-243 | lays the segments out as a linked chain on the front of the free list, shares each with the device, and touches no other descriptor |
| `VirtQueues.VirtQueue.AddIndirect` | project/D3OS-VirtIO-Drivers/os/library/virtio-drivers/src/queue.rs:246-297 | builds a table of the segments, refers to it with one descriptor, records it under the head, and touches no other entry |
| `VirtQueues.VirtQueue.Add` | project/D3OS-VirtIO-Drivers/os/library/virtio-drivers/src/queue.rs:155-207 | moves the represented protocol state by exactly one add step and keeps table, shadow, rings and indices a representation of it; n buffers are accepted if and only if 1 <= n <= size and the free list holds one descriptor in indirect mode and n otherwise, no buffers are InvalidParam, and every other refusal is QueueFull |
| `VirtQueues.VirtQueue.RecycleDirect` | project/D3OS-VirtIO-Drivers/os/library/virtio-drivers/src/queue.rs:417-498 | puts the chain back in front of the free list in its own order, from a free list whose last link may be stale, and empties its descriptors, in the shared table as well |
| `VirtQueues.VirtQueue.RecycleIndirect` | project/D3OS-VirtIO-Drivers/os/library/virtio-drivers/src/queue.rs:417-498 | empties and frees the one descriptor and drops its table, and no other |
| `VirtQueues.VirtQueue.PopUsed` | project/D3OS-VirtIO-Drivers/os/library/virtio-drivers/src/queue.rs:509-552 | moves the protocol state by exactly one pop step and answers the length the device gave, NotReady if nothing is completed, or WrongToken if the oldest completion is another one; no assert or unwrap on the way fails when the same buffers are passed back |
| `VirtQueues.VirtQueue.Fetches` | project/D3OS-VirtIO-Drivers/os/library/virtio-drivers/src/queue.rs:873-882 | the device reading shared memory finds the very chain the protocol state says is next |
| `VirtQueues.VirtQueue.Completes` | project/D3OS-VirtIO-Drivers/os/library/virtio-drivers/src/queue.rs:980-983 | the device writing the used ring completes that chain in the protocol state |
| `BlockingRequests.AddNotifyWaitPop` | project/D3OS-VirtIO-Drivers/os/library/virtio-drivers/src/queue.rs:305-327 | on an idle queue a request is refused unchanged, or answered with its own completion length and the free list restored in the same order, or still awaited with no completion there |
| `BlockingRequests.SoloRequest` | project/D3OS-VirtIO-Drivers/os/library/virtio-drivers/src/queue.rs:305-327 | the one completion of an idle queue is the request just added, so WrongToken cannot occur |
| `OwningQueues.TakeHolds` | project/D3OS-VirtIO-Drivers/os/library/virtio-drivers/src/queue/owning.rs:79-95 | popping from a queue that pairs token i with buffer i frees exactly the head and keeps the pairing |
| `OwningQueues.OfferHolds` | project/D3OS-VirtIO-Drivers/os/library/virtio-drivers/src/queue/owning.rs:57-77 | adding the buffer of the first free descriptor gets that descriptor as token and keeps the pairing |
| `OwningQueues.DeliverIntact` | project/D3OS-VirtIO-Drivers/os/library/virtio-drivers/src/queue/owning.rs:79-95 | a delivery never overwrites a buffer whose completion has not been popped |
| `OwningQueues.OwningQueue.constructor` | project/D3OS-VirtIO-Drivers/os/library/virtio-drivers/src/queue/owning.rs:21-34 | with the device running between any two adds, buffer i gets token i and all buffers are in flight |
| `OwningQueues.OwningQueue.Pop` | project/D3OS-VirtIO-Drivers/os/library/virtio-drivers/src/queue/owning.rs:79-95 | yields the bytes delivered for the oldest completion and its token; the token is a valid buffer index |
| `OwningQueues.OwningQueue.AddBufferToQueue` | project/D3OS-VirtIO-Drivers/os/library/virtio-drivers/src/queue/owning.rs:57-77 | WrongToken exactly for an index out of range; otherwise the buffer gets its own token back and all SIZE buffers are in flight |
| `OwningQueues.OwningQueue.Poll` | project/D3OS-VirtIO-Drivers/os/library/virtio-drivers/src/queue/owning.rs:107-125 | hands the handler the next delivery in order, exactly once, and has all SIZE buffers in flight again whatever the handler answers |
| `OwningQueues.OwningQueue.PopPendingEvent` | project/D3OS-VirtIO-Drivers/os/library/virtio-drivers/src/device/input.rs:70-95 | yields the next event delivered, in order, and gives its buffer back under the same token, with all buffers in flight again |
| `QueueProtocol.SingleChain` | project/D3OS-VirtIO-Drivers/os/library/virtio-drivers/src/device/console.rs:144-198 | with one request in flight a waiting completion is that request, and nothing is waiting while it is processed |
| `Consoles.Console.constructor` | project/D3OS-VirtIO-Drivers/os/library/virtio-drivers/src/device/console.rs:93-126 | a receive request is outstanding from the start |
| `Consoles.Console.PollRetrieve` | project/D3OS-VirtIO-Drivers/os/library/virtio-drivers/src/device/console.rs:144-157 | afterwards a receive request is outstanding exactly when every byte taken has been popped; the queue is never full |
| `Consoles.Console.FinishReceive` | project/D3OS-VirtIO-Drivers/os/library/virtio-drivers/src/device/console.rs:175-198 | takes the outstanding request back exactly if it is finished, without losing or reordering bytes |
| `Consoles.Console.AckInterrupt` | project/D3OS-VirtIO-Drivers/os/library/virtio-drivers/src/device/console.rs:163-170 | true exactly for a queue interrupt with a finished request |
| `Consoles.Console.Recv` | project/D3OS-VirtIO-Drivers/os/library/virtio-drivers/src/device/console.rs:203-214 | yields the next byte of the delivered stream or None exactly when all is consumed; popped bytes followed by unread bytes are always what the device delivered |
| `Consoles.Console.Deliver` | project/D3OS-VirtIO-Drivers/os/library/virtio-drivers/src/device/console.rs:144-198 | the device only ever writes the buffer while nothing unread is in it |
| `Consoles.Console.WaitForReceive` | project/D3OS-VirtIO-Drivers/os/library/virtio-drivers/src/device/console.rs:232-238 | ends exactly when an unread byte is there, consuming none |
| `PcmTransfers.ChunksCover` | project/D3OS-VirtIO-Drivers/os/library/virtio-drivers/src/device/sound.rs:505-508 | the chunks are adjacent, cover the frames from first to last byte, and are exactly one period each except that the last one may be shorter |
| `PcmTransfers.SlotsSuffice` | project/D3OS-VirtIO-Drivers/os/library/virtio-drivers/src/device/sound.rs:518-542 | no more requests than slots are in flight, and head == tail with room for three descriptors means nothing is in flight |
| `PcmTransfers.SubmitRing` | project/D3OS-VirtIO-Drivers/os/library/virtio-drivers/src/device/sound.rs:521-538 | the slot at head is not in flight, so filling it keeps token, buffer and status of every request in flight |
| `PcmTransfers.CollectRing` | project/D3OS-VirtIO-Drivers/os/library/virtio-drivers/src/device/sound.rs:543-561 | taking back the request at tail leaves every later request in its slot |
| `PcmTransfers.InOrderToken` | project/D3OS-VirtIO-Drivers/os/library/virtio-drivers/src/device/sound.rs:543-553 | with a device that has completed this transfer in order so far, whatever came before it, the next completion is the token at tail |
| `PcmTransfers.Sound.Turn` | project/D3OS-VirtIO-Drivers/os/library/virtio-drivers/src/device/sound.rs:518-563 | a turn adds a chunk exactly if one is left and there is room, collects exactly if a completion waits, and ends well exactly when all chunks are collected |
| `PcmTransfers.Sound.PcmXfer` | project/D3OS-VirtIO-Drivers/os/library/virtio-drivers/src/device/sound.rs:494-566 | on success nothing is in flight, the device was given exactly the chunks in order and reported OK for each; WrongToken only if the device was out of order in this transfer, IoError only right after a chunk it reported as failed; on either error all chunks before are OK and the device still owns exactly the requests added and not taken back; with a device that serves a request before each turn the transfer ends well within two turns more than there are chunks |
| `FrameLists.CanonicalUnique` | project/D3OS-VirtIO-Drivers/os/kernel/src/memory/frames.rs:182-335 | a set of frames has exactly one sorted, disjoint, maximally coalesced block list |
| `FrameLists.AllocThenFree` | project/D3OS-VirtIO-Drivers/os/kernel/src/memory/frames.rs:240-335 | freeing what was allocated gives back the identical list |
| `FrameLists.FreeOrderIrrelevant` | project/D3OS-VirtIO-Drivers/os/kernel/src/memory/frames.rs:276-335 | freeing the same ranges in any order gives the same list |
| `FrameAccounts.FreeCallsAnyOrder` | project/D3OS-VirtIO-Drivers/os/kernel/src/memory/frames.rs:276-335 | so for calls of free_block itself: ranges that overlap neither each other nor the list give the same list in any order |
| `FrameAllocators.FrameAllocator.Insert` | project/D3OS-VirtIO-Drivers/os/kernel/src/memory/frames.rs:182-219 | a walk over linked nodes puts the new block at its sorted place |
| `FrameAllocators.FrameAllocator.FindFreeBlock` | project/D3OS-VirtIO-Drivers/os/kernel/src/memory/frames.rs:222-237 | unlinks the lowest block that is large enough, or finds that none is |
| `FrameAllocators.FrameAllocator.AllocBlock` | project/D3OS-VirtIO-Drivers/os/kernel/src/memory/frames.rs:240-272 | takes exactly the first frames of the lowest block that fits and keeps the list canonical; fails only if no block is large enough |
| `FrameAccounts.AllocLowest` | project/D3OS-VirtIO-Drivers/os/kernel/src/memory/frames.rs:222-272 | what is handed out is the lowest run of that many free frames, and nothing is handed out only if there is no such run |
| `FrameAllocators.FrameAllocator.FreeBlock` | project/D3OS-VirtIO-Drivers/os/kernel/src/memory/frames.rs:276-335 | adds exactly the freed frames, coalescing with both neighbours; panics exactly when the range overlaps a block and no block ends at its start; the list stays canonical exactly if nothing overlaps and the range is not empty or touches a block |
| `FrameAllocators.FrameAllocator.ReserveBlock` | project/D3OS-VirtIO-Drivers/os/kernel/src/memory/frames.rs:338-391 | the linked-list walk equals the recursive description of it, panics included; on a reservable list it removes exactly the reserved frames |
| `FrameAllocators.FrameAllocator.BootInsert` | project/D3OS-VirtIO-Drivers/os/kernel/src/memory/frames.rs:49-75 | of a region no frame of which is free exactly the frames from 1 on become free; a region of frame 0 alone is ignored; raises the physical limit to the region end, and for an empty region leaves an empty block unless it touches one |
| `Reservations.ReserveExactly` | project/D3OS-VirtIO-Drivers/os/kernel/src/memory/frames.rs:338-391 | reserving removes exactly the reserved frames if and only if the list meets a condition on which blocks the range covers wholly |
| `Reservations.ReserveLeaves` | project/D3OS-VirtIO-Drivers/os/kernel/src/memory/frames.rs:338-391 | for every canonical list and range: the walk unlinks a block inside the range unless it unlinked the one before, passes over the block behind an unlinked one, panics exactly if it unlinks the last block, and leaves exactly the frames of passed-over blocks and the unreserved frames of the others |
| `Reservations.ReserveSkips` | project/D3OS-VirtIO-Drivers/os/kernel/src/memory/frames.rs:370-389 | a reservation over a wholly covered block leaves reserved frames free: a concrete list |
| `Reservations.ReservedShrinks` | project/D3OS-VirtIO-Drivers/os/kernel/src/memory/frames.rs:338-391 | a reservation never makes a frame free, whatever it covers |
| `FrameAccounts.StepBalances` | project/D3OS-VirtIO-Drivers/os/kernel/src/memory/frames.rs:49-391 | every call keeps the inserted frames the disjoint union of free, allocated and reserved ones, and frame 0 out of all three |
| `FrameAccounts.RunBalances` | project/D3OS-VirtIO-Drivers/os/kernel/src/memory/frames.rs:49-391 | so does every run of boot inserts, allocations, frees and reservations from the empty allocator |
| `FrameAccounts.AllocBalances` | project/D3OS-VirtIO-Drivers/os/kernel/src/memory/frames.rs:240-272 | frames handed out were free before, and frame 0 is never among them |
| `FrameAccounts.ReserveBalances` | project/D3OS-VirtIO-Drivers/os/kernel/src/memory/frames.rs:338-391 | a reservation takes exactly its frames from the free ones |
| `FrameAccounts.AllocFreeRestores` | project/D3OS-VirtIO-Drivers/os/kernel/src/memory/frames.rs:240-335 | freeing right after allocating never panics and restores the identical list |
| `FrameAccounts.UnnoticedOverlap` | project/D3OS-VirtIO-Drivers/os/kernel/src/memory/frames.rs:310-323 | a freed range that starts at the end of a block and overlaps the next one is accepted: a concrete list, no longer canonical |
| `PageIndex.NumDown` | project/D3OS-VirtIO-Drivers/os/kernel/src/memory/pages.rs:46-48 | nine bits per level: the region below is the index-th of the 512 parts of the region above |
| `PageIndex.NumRange` | project/D3OS-VirtIO-Drivers/os/kernel/src/memory/pages.rs:46-48 | a page lies in a region exactly when it is between its first page and the next one |
| `PageTables.TranslateKept` | project/D3OS-VirtIO-Drivers/os/kernel/src/memory/pages.rs:390-404 | in well-formed table memory a translation depends only on the tables placed above its page |
| `PageTables.MappedUp` | project/D3OS-VirtIO-Drivers/os/kernel/src/memory/pages.rs:234-277 | mapping pages below a child table maps them, and nothing else, for the table above |
| `Paging.AddressSpaces.IdentityMapKernel` | project/D3OS-VirtIO-Drivers/os/kernel/src/memory/pages.rs:407-422 | fills consecutive entries with the frames of the same number, up to the end of the table, and no other entry |
| `Paging.AddressSpaces.MapUser` | project/D3OS-VirtIO-Drivers/os/kernel/src/memory/pages.rs:425-440 | fills them with distinct frames taken from the allocator, and takes no others |
| `Paging.AddressSpaces.MapUserPhysical` | project/D3OS-VirtIO-Drivers/os/kernel/src/memory/pages.rs:443-457 | fills them with the given frames one for one, never asking for one too many |
| `Paging.AddressSpaces.MapInTable` | project/D3OS-VirtIO-Drivers/os/kernel/src/memory/pages.rs:234-277 | for every level and range: exactly min(length, pages left in the table) pages get level-1 entries with their identity, given or fresh frame and the given flags, every other page keeps its entry, tables made on the way get the given flags and all others keep theirs, frames and pages stay in lockstep, and what has left the allocator is in new tables or behind the pages and not in both; mapping pages leaves no table empty that was not, and mapping no page changes nothing where its level-1 table is there and otherwise makes that table and leaves it empty; it fails only when the allocator has no frame |
| `Paging.AddressSpaces.UnmapInTable` | project/D3OS-VirtIO-Drivers/os/kernel/src/memory/pages.rs:280-328 | the recursion that writes entries in place computes, for every memory and range, exactly the walk that the theorems on unmapping are about |
| `Paging.AddressSpaces.IsTableEmpty` | project/D3OS-VirtIO-Drivers/os/kernel/src/memory/pages.rs:460-468 | true exactly if no entry is in use |
| `UnmapWalks.WalkDoes` | project/D3OS-VirtIO-Drivers/os/kernel/src/memory/pages.rs:280-328 | for every hierarchy, level and range, with tables missing or not and with freeing or not: the walk goes well, exactly the planned pages stop translating, all others keep frame and flags at every level, exactly the tables that are gone and the frames behind those pages are freed, and no table but roots is left empty that was not empty before |
| `UnmapWalks.PlanKept` | project/D3OS-VirtIO-Drivers/os/kernel/src/memory/pages.rs:280-328 | which pages are planned depends only on the tables in the region of the table the walk starts from |
| `UnmapRanges.PlanAhead` | project/D3OS-VirtIO-Drivers/os/kernel/src/memory/pages.rs:280-328 | for every memory, level and range, whatever tables are missing: no page of the region that lies before the range is planned, so unmapping a user range never takes out kernel pages below it |
| `UnmapRanges.UnmapExactly` | project/D3OS-VirtIO-Drivers/os/kernel/src/memory/pages.rs:280-328 | for every hierarchy, level and range: exactly the range is unmapped if and only if no page that is in the range and not planned, or planned and not in the range, was mapped |
| `UnmapRanges.BackedPlan` | project/D3OS-VirtIO-Drivers/os/kernel/src/memory/pages.rs:280-328 | if every page of the range has its level-1 table, the planned pages are those of the range as far as it lies in the region |
| `UnmapRanges.WalkUnmaps` | project/D3OS-VirtIO-Drivers/os/kernel/src/memory/pages.rs:280-328 | then exactly those pages stop translating, each leaf frame is freed once when asked, no double free occurs, and the count is the number of those pages |
| `UnmapRanges.OtherPageUnmapped` | project/D3OS-VirtIO-Drivers/os/kernel/src/memory/pages.rs:286-288 | without its table, unmapping page 0 of a four-level space unmaps page 512 instead and frees its frame: a concrete hierarchy |
| `Paging.AddressSpaces.Unmap` | project/D3OS-VirtIO-Drivers/os/kernel/src/memory/pages.rs:150-156 | for every range the space is left as the walk leaves it: well formed, with exactly the planned pages unmapped, which are those of the range if its tables are there |
| `Unmapping.LeafTakenOut` | project/D3OS-VirtIO-Drivers/os/kernel/src/memory/pages.rs:305-325 | clearing entries of a level-1 table takes out exactly their pages and frees exactly their frames |
| `Unmapping.ChildLeaves` | project/D3OS-VirtIO-Drivers/os/kernel/src/memory/pages.rs:290-303 | removing a table that became empty changes no translation and gives back exactly its frame |
| `Paging.AddressSpaces.NewSpace` | project/D3OS-VirtIO-Drivers/os/kernel/src/memory/pages.rs:63-69 | a new address space on a fresh frame that translates nothing, with all other spaces as they were |
| `Paging.AddressSpaces.CopyTable` | project/D3OS-VirtIO-Drivers/os/kernel/src/memory/pages.rs:205-228 | at every level, whatever the target frame held: the copy has for every page of the region the same frame and at every level the same flags as the source, takes from the allocator exactly the frames of the new tables, and leaves every other table alone; it fails only when the allocator has no frame |
| `Paging.AddressSpaces.FromOther` | project/D3OS-VirtIO-Drivers/os/kernel/src/memory/pages.rs:72-85 | the new space has for every page the same frame and flags as the other one, shares no table with it, takes exactly the frames of its own tables, and changes no table that was there |
| `Copying.EntryJoined` | project/D3OS-VirtIO-Drivers/os/kernel/src/memory/pages.rs:205-228 | copying the table below one more entry keeps all copies made so far in order |
| `Copying.OtherSpaceKept` | project/D3OS-VirtIO-Drivers/os/kernel/src/memory/pages.rs:72-85 | a change to one space leaves every translation of every other space as it was |
| `SpaceRuns.RunSound` | project/D3OS-VirtIO-Drivers/os/kernel/src/memory/pages.rs:63-328 | over every run of creating, copying, mapping and unmapping any ranges, in any number of spaces, table memory stays well formed with every table in one place |
| `SpaceRuns.StepOrderly` | project/D3OS-VirtIO-Drivers/os/kernel/src/memory/pages.rs:234-328 | from memory without empty tables every operation leads to such memory again, if and only if it is not a mapping of no page whose level-1 table is missing |
| `SpaceRuns.NoPageLeavesTable` | project/D3OS-VirtIO-Drivers/os/kernel/src/memory/pages.rs:241-251 | in a space just created, mapping no page leaves an empty table |
| `SpaceRuns.RunOrderly` | project/D3OS-VirtIO-Drivers/os/kernel/src/memory/pages.rs:63-328 | over every run without such mappings no table but roots is ever left empty |
| `SpaceRuns.RunKeepsOthers` | project/D3OS-VirtIO-Drivers/os/kernel/src/memory/pages.rs:63-328 | over every run a space in which nothing is mapped or unmapped translates as it did; so a copy and its original go separate ways |
| `SpaceRuns.StepKeepsOthers` | project/D3OS-VirtIO-Drivers/os/kernel/src/memory/pages.rs:63-328 | each operation leaves every translation of every space it is not about as it was |
| `UserFrames.AskedPermitted` | project/D3OS-VirtIO-Drivers/os/kernel/src/memory/vmm.rs:533-538 | what freeing needs is a consequence: for any user range the frames behind the planned pages are distinct, not free and no tables, if the frames behind all user pages are |
| `UserFrames.StepKept` | project/D3OS-VirtIO-Drivers/os/kernel/src/memory/pages.rs:63-328 | creating, copying a space without user pages, mapping pages of the right part and unmapping any range keep the frames behind all user pages distinct, not free and no tables; frames move between allocator, tables and user pages only, but for those brought by the caller and those behind pages mapped over or unmapped without freeing |
| `UserFrames.ConservesExactly` | project/D3OS-VirtIO-Drivers/os/kernel/src/memory/pages.rs:63-328 | the frames that are free, tables or behind a user page stay the same if and only if nothing is mapped over or unmapped without freeing and the caller brings none |
| `UserFrames.RunOwned` | project/D3OS-VirtIO-Drivers/os/kernel/src/memory/vmm.rs:533-538 | over every such run no unmapping of a user range, with its tables missing or not, frees a frame that is free, and user frames stay their spaces' own |
| `UserFrames.RunConserves` | project/D3OS-VirtIO-Drivers/os/kernel/src/memory/pages.rs:63-328 | over every run that maps frames from the allocator to unmapped pages and frees what it unmaps no frame is lost: free frames, tables and user frames together stay the same set |
| `Paging.MapChangesOnly` | project/D3OS-VirtIO-Drivers/os/kernel/src/memory/pages.rs:106-112 | mapping changes tables of its own space only |
| `Paging.UnmapChangesOnly` | project/D3OS-VirtIO-Drivers/os/kernel/src/memory/pages.rs:150-156 | unmapping any range changes tables of its own space only |
| `VmaSpaces.PredecessorSpeaks` | project/D3OS-VirtIO-Drivers/os/kernel/src/memory/vmm.rs:240-247 | among disjoint areas the check of the predecessor alone decides for all areas that start no later |
| `VmaSpaces.FixedKeepsApart` | project/D3OS-VirtIO-Drivers/os/kernel/src/memory/vmm.rs:217-252 | an accepted fixed-address allocation keeps the areas disjoint if and only if it ends by the start of the next one |
| `VmaSpaces.FixedMayOverlap` | project/D3OS-VirtIO-Drivers/os/kernel/src/memory/vmm.rs:240-251 | an accepted one may overlap the next area: a concrete case |
| `VmaSpaces.AddressSpace.AllocAt` | project/D3OS-VirtIO-Drivers/os/kernel/src/memory/vmm.rs:217-252 | answers an area if and only if it ends by the last usable address, a user area does not start below user space, and the area with the greatest start up to its own ends by then, which among disjoint areas means that no area holds its first address; the area is then filed under its start with its own bounds, space and kind |
| `VmaSpaces.AddressSpace.FindGap` | project/D3OS-VirtIO-Drivers/os/kernel/src/memory/vmm.rs:263-301 | the lowest address where the size fits among the areas looked at, and None exactly if there is none |
| `VmaSpaces.AddressSpace.Alloc` | project/D3OS-VirtIO-Drivers/os/kernel/src/memory/vmm.rs:263-301 | places the area at the lowest fit among all areas, keeping them disjoint; None if and only if nothing fits, or an area straddles the boundary of user space and, that area aside, the size would fit right at the start of user space; for no pages, None if and only if the first address searched lies inside an area |
| `VmaSpaces.AddressSpace.AddressWithinVma` | project/D3OS-VirtIO-Drivers/os/kernel/src/memory/vmm.rs:519-530 | answers area v exactly if v is of the kind and contains the address, as a scan of all areas would |
| `VmaSpaces.CandidateOutcome` | project/D3OS-VirtIO-Drivers/os/kernel/src/memory/vmm.rs:240-251 | room that was found and is free or has its first address taken: entering it never makes areas overlap, and is refused if and only if that address is taken |
| `VmaSpaces.CandidateFits` | project/D3OS-VirtIO-Drivers/os/kernel/src/memory/vmm.rs:263-301 | what a search finds is the lowest fit among all areas, unless it lies in an area that straddles the boundary of user space |
| `VmaSpaces.CoveredExactly` | project/D3OS-VirtIO-Drivers/os/kernel/src/memory/vmm.rs:263-301 | what a user search finds lies inside an area if and only if an area straddles the boundary and the search finds room right at the start of user space |
| `VmaSpaces.FitMeans` | project/D3OS-VirtIO-Drivers/os/kernel/src/memory/vmm.rs:265-269 | room at an address is room between the bounds of its space, the start of user space and the last usable address for users and 0 and the start of user space for the kernel, clear of all areas |
| `VmaSpaces.UnplaceableMeans` | project/D3OS-VirtIO-Drivers/os/kernel/src/memory/vmm.rs:263-301 | what makes a search fail, in terms of the areas alone: no address of the space has room, or an area straddles the boundary and every area after it leaves room right at the start of user space |
| `VmaSpaces.StraddlerHidesRoom` | project/D3OS-VirtIO-Drivers/os/kernel/src/memory/vmm.rs:263-301 | an area across the boundary makes a user search fail although there is room: a concrete case |
| `VmaInterleavings.OthersStayOpen` | project/D3OS-VirtIO-Drivers/os/kernel/src/memory/vmm.rs:263-301 | entering one search's area leaves every other search with its room, or with its first address taken |
| `VmaInterleavings.InterleavingsSafe` | project/D3OS-VirtIO-Drivers/os/kernel/src/memory/vmm.rs:217-301 | over every interleaving of searches, delayed entries and fixed-address allocations of any size, of which the accepted ones are considerate, all areas stay disjoint and no non-empty area is displaced |
| `VmaInterleavings.SearchesSafe` | project/D3OS-VirtIO-Drivers/os/kernel/src/memory/vmm.rs:263-301 | without fixed-address allocations this holds from the empty address space with nothing assumed |
| `VmaInterleavings.RunBounded` | project/D3OS-VirtIO-Drivers/os/kernel/src/memory/vmm.rs:224-233 | over every run of searches, entries and fixed-address allocations, considerate or not, user areas lie between the start of user space and the last usable address, and no search for the kernel ends in user space |
| `VmaInterleavings.EnterOutcome` | project/D3OS-VirtIO-Drivers/os/kernel/src/memory/vmm.rs:240-301 | at any later time a search gets exactly the room it found, or nothing exactly because its first address is taken |
| `VmaInterleavings.InconsiderateOverlaps` | project/D3OS-VirtIO-Drivers/os/kernel/src/memory/vmm.rs:240-301 | every accepted fixed-address area, of any size, that starts strictly inside room a search can still take overlaps the area of that search once it is entered |
| `VmaInterleavings.ConsiderateExactly` | project/D3OS-VirtIO-Drivers/os/kernel/src/memory/vmm.rs:217-301 | after an accepted fixed-address allocation of any size, zero pages included, every continuation of searches and entries keeps all areas disjoint if and only if the allocation reaches no next area and does not start strictly inside room that can still be taken |
| `VmaInterleavings.FixedBetween` | project/D3OS-VirtIO-Drivers/os/kernel/src/memory/vmm.rs:240-301 | a fixed-address allocation between search and entry can make two areas overlap: a concrete run |
| `VmaInterleavings.EmptyFixedBetween` | project/D3OS-VirtIO-Drivers/os/kernel/src/syscall/sys_vmem.rs:22-41 | so can one of no pages, as the system call admits: a concrete run |
| `Scheduling.StepInv` | project/D3OS-VirtIO-Drivers/os/kernel/src/process/scheduler.rs:104-356 | every step keeps each living thread in exactly one of current, ready queue, sleep list or one join list, with join lists exactly for living threads |
| `Scheduling.RunInv` | project/D3OS-VirtIO-Drivers/os/kernel/src/process/scheduler.rs:104-356 | so it is in every state reachable from boot |
| `Scheduling.KillExactly` | project/D3OS-VirtIO-Drivers/os/kernel/src/process/scheduler.rs:278-301 | a kill keeps that if and only if the victim is ready or waits for itself |
| `Scheduling.KilledSleeperReturns` | project/D3OS-VirtIO-Drivers/os/kernel/src/process/scheduler.rs:278-301 | every thread killed in its sleep is in the ready queue again at the next look at the sleep list, without being alive |
| `ProcessKills.KillsCleanExactly` | project/D3OS-VirtIO-Drivers/os/kernel/src/process/process.rs:45-57 | for every interleaving of the kills of listed threads with anything else: all threads stay in one place throughout if and only if each victim is within reach when its turn comes |
| `ProcessKills.UndisturbedClean` | project/D3OS-VirtIO-Drivers/os/kernel/src/process/process.rs:45-57 | that is so for all victims if nothing is dequeued between the moment each is found ready and its turn |
| `ProcessKills.UndisturbedPossible` | project/D3OS-VirtIO-Drivers/os/kernel/src/process/scheduler.rs:278-301 | nor does the kill of an undisturbed victim panic |
| `ProcessKills.ListedTooEarly` | project/D3OS-VirtIO-Drivers/os/kernel/src/process/process.rs:45-57 | two runs from boot in which a thread listed as ready sleeps or has exited at its turn: the kill leaves it behind, or panics |
| `Scheduling.JoinersWait` | project/D3OS-VirtIO-Drivers/os/kernel/src/process/scheduler.rs:229-301 | a joiner goes on when its target exits or is killed, all joiners of the target do, and none does before |
| `Scheduling.SleepersSleep` | project/D3OS-VirtIO-Drivers/os/kernel/src/process/scheduler.rs:145-166 | a sleeper goes on at the first look at the list at or after its wake time, and not before |
| `ThreadRuns.JoinEffect` | project/D3OS-VirtIO-Drivers/os/kernel/src/process/scheduler.rs:229-246 | joining a living thread puts the caller, and nobody else, behind those that already wait for that thread, and the caller neither runs nor is ready; joining any other id does nothing |
| `ThreadRuns.JoinedUntilEnd` | project/D3OS-VirtIO-Drivers/os/kernel/src/process/scheduler.rs:229-301 | over every run a thread that joined a living thread goes on with the step that ends it and with no step before |
| `ThreadRuns.SleepEffect` | project/D3OS-VirtIO-Drivers/os/kernel/src/process/scheduler.rs:145-166 | a sleeping thread is entered last with wake time now + ms and neither runs nor is ready; before initialization nothing happens |
| `ThreadRuns.SleepsUntilDue` | project/D3OS-VirtIO-Drivers/os/kernel/src/process/scheduler.rs:145-166 | over every run a thread that sleeps for ms goes on with the first look at the list at or after now + ms and with no step before |
| `ThreadRuns.SwitchEffect` | project/D3OS-VirtIO-Drivers/os/kernel/src/process/scheduler.rs:174-212 | a switch runs the thread that waits longest and puts the current one behind all others, unless it may not be interrupted or nobody is ready; it looks at the sleep list only if that is free |
| `ThreadRuns.ReadyEffect` | project/D3OS-VirtIO-Drivers/os/kernel/src/process/scheduler.rs:117-142 | a new thread is behind all ready threads and nobody waits for it |
| `ThreadRuns.EndEffect` | project/D3OS-VirtIO-Drivers/os/kernel/src/process/scheduler.rs:248-301 | an ended thread is in no place and has no join list, all other join lists stay, and after an exit the thread that waits longest runs |
| `ThreadRuns.StepKeeps` | project/D3OS-VirtIO-Drivers/os/kernel/src/process/scheduler.rs:60-356 | what each operation leaves alone |
| `ThreadRuns.NoOvertaking` | project/D3OS-VirtIO-Drivers/os/kernel/src/process/scheduler.rs:105-356 | whatever the step, of two ready threads the one that is before the other stays before it or runs, unless one of them is killed |
| `ThreadRuns.ReleasedInOrder` | project/D3OS-VirtIO-Drivers/os/kernel/src/process/scheduler.rs:261-263 | those that wait for a thread go on in the order in which they joined it, behind all that were ready |
| `ThreadRuns.WokenInOrder` | project/D3OS-VirtIO-Drivers/os/kernel/src/process/scheduler.rs:345-356 | sleepers due at the same look go on in list order, behind all that were ready |
| `ThreadRuns.SleepersKeepOrder` | project/D3OS-VirtIO-Drivers/os/kernel/src/process/scheduler.rs:345-356 | sleepers that sleep on keep their order in the list |
| `Scheduling.StepAhead` | project/D3OS-VirtIO-Drivers/os/kernel/src/process/scheduler.rs:174-212 | a step that takes a thread from the queue brings every ready thread one place on; no step puts one back |
| `Scheduling.BoundedWaiting` | project/D3OS-VirtIO-Drivers/os/kernel/src/process/scheduler.rs:117-356 | a ready thread with b threads before it runs after at most b + 1 dequeues, whatever arrivals, wake-ups, exits and kills of others happen meanwhile |
| `Schedulers.Scheduler.Ready` | project/D3OS-VirtIO-Drivers/os/kernel/src/process/scheduler.rs:117-142 | a new thread enters the queue behind all others and is alive from then on, with nobody waiting for it |
| `Schedulers.Scheduler.CheckSleepList` | project/D3OS-VirtIO-Drivers/os/kernel/src/process/scheduler.rs:345-356 | moves exactly the due threads to the front of the queue, in list order, and keeps the rest |
| `Schedulers.Scheduler.SwitchThread` | project/D3OS-VirtIO-Drivers/os/kernel/src/process/scheduler.rs:174-212 | takes the switch step, with locks that cannot be had as parameters |
| `Schedulers.Scheduler.Block` | project/D3OS-VirtIO-Drivers/os/kernel/src/process/scheduler.rs:309-338 | dispatches the next thread or looks at the sleep list, reading after reading, until one is due, the calling thread included |
| `Schedulers.Scheduler.Sleep` | project/D3OS-VirtIO-Drivers/os/kernel/src/process/scheduler.rs:145-166 | the thread is in the sleep list with its wake time and another one runs, or itself if it is due first; before initialisation nothing changes |
| `Schedulers.Scheduler.Join` | project/D3OS-VirtIO-Drivers/os/kernel/src/process/scheduler.rs:229-245 | takes the join step, or does nothing for a thread that is not alive |
| `Schedulers.Scheduler.Exit` | project/D3OS-VirtIO-Drivers/os/kernel/src/process/scheduler.rs:248-271 | takes the exit step; panics exactly if the thread has no join list |
| `Schedulers.Scheduler.Kill` | project/D3OS-VirtIO-Drivers/os/kernel/src/process/scheduler.rs:278-301 | takes the kill step; panics exactly for the current thread and for one without a join list |
| `Schedulers.PollAllInv` | project/D3OS-VirtIO-Drivers/os/kernel/src/process/scheduler.rs:309-338 | waiting for a sleeper keeps every thread in one place |
| `Schedulers.Scheduler.KillAllButCurrent` | project/D3OS-VirtIO-Drivers/os/kernel/src/process/process.rs:45-57 | with any steps of others before each scheduler call: every kill is made by the calling thread in a state that permits it, the outcome is clean if each victim was within reach, a panic is for a victim that cannot be killed; undisturbed, it ends exactly the ready threads of the process |
| `RegionLists.MergeApart` | project/D3OS-VirtIO-Drivers/os/kernel/src/memory/frames_lf.rs:120-135 | one pass suffices although the merged interval grows on the way: nothing kept touches the result |
| `RegionLists.AddedRight` | project/D3OS-VirtIO-Drivers/os/kernel/src/memory/frames_lf.rs:86-146 | adding covers exactly the union and keeps the intervals from touching |
| `RegionLists.CutSeparate` | project/D3OS-VirtIO-Drivers/os/kernel/src/memory/frames_lf.rs:150-200 | reserving keeps the intervals from touching |
| `RegionLists.CutCovers` | project/D3OS-VirtIO-Drivers/os/kernel/src/memory/frames_lf.rs:150-200 | reserving covers exactly the difference |
| `RegionLists.NotesRight` | project/D3OS-VirtIO-Drivers/os/kernel/src/memory/frames_lf.rs:86-200 | over any sequence of additions and reservations the intervals never touch and cover exactly what was last said to be free, page 0 excepted |
| `RegionLists.SameRegions` | project/D3OS-VirtIO-Drivers/os/kernel/src/memory/frames_lf.rs:86-200 | two such lists that cover the same addresses hold the same non-empty regions, so the order of additions does not matter |
| `BootRegions.RegionTable.AddFreeRegion` | project/D3OS-VirtIO-Drivers/os/kernel/src/memory/frames_lf.rs:86-146 | the array afterwards holds the list with the region added and so covers exactly what it covered and the region from page 1 on; panics exactly for bounds off page boundaries or out of order and when the result has more than 512 regions |
| `BootRegions.RegionTable.AddReservedRegion` | project/D3OS-VirtIO-Drivers/os/kernel/src/memory/frames_lf.rs:150-200 | the array afterwards holds the list with the region cut out and so covers exactly the rest; panics exactly for bounds off page boundaries or out of order and when the result has more than 512 regions |

## Left out

- UnmapWalks.WalkDoes: if frames are to be freed, those behind the planned pages have to be distinct and neither free nor tables; `UserFrames.RunOwned` shows this of user ranges, and what a double free does to the tables is not stated.
- UserFrames.StepKept: freeing the frames behind kernel pages, which are mapped one to one, is not covered, nor is copying a space that has user pages; processes are copies of the kernel's space.
- Paging.AddressSpaces.MapInTable: mapping frame 0 with no flag bits at all is not covered; such an entry reads as unused.
- Paging.AddressSpaces.AllocFrame: hands out any free frame; the first-fit choice is in `FrameAllocators` and the two are not composed.
- PcmTransfers.Sound.PcmXfer: the stream parameters are reduced to whether they were set.
- Consoles.Console.Act: the device never completes a receive request without data; the driver would panic on that.
- OwningQueues.OwningQueue.PopPendingEvent: the input device is modelled as this method on the owning queue, whose buffers it keeps in the same way; its status queue and configuration queries are not modelled.
- Schedulers.Scheduler.Ready: a thread must have been created and not made ready before; thread ids do not wrap around.
- VmaSpaces.AddressSpace.AllocAt: sizes whose end address overflows 64 bits are not modelled.
- Descriptors.WalkFollows: a device follows links for at most as many steps as the table has entries; a cyclic chain is answered with None instead of being followed for ever.
- Memory ordering, fences, spin locks and interrupts: every operation is one step, except the search and the entry of an area and the listing and killing of threads.
- Event-index notification, `should_notify` and `set_dev_notify`: single conditions on notification only.
- VirtQueues.VirtQueue.constructor: the part of `new` after the transport and the memory have been asked; `NewQueue` has the refusals.
- Transport negotiation beyond what `NewQueue` asks, the memory layout of a queue, and bounce buffers: the queue starts from zeroed memory, and a shared buffer is its address and length.
- Sending on the console, emergency write, and the other device drivers: requests with fixed layouts over the same queue.
- `drop_table`, `set_flags_in_table`, `copy_to_addr_space` and the dump functions of the memory manager.
- Tags of memory areas and the mapping of frames into areas.
- Context switching, stacks, process and ELF handling, system calls, terminal, graphics, network and storage code.
- The boot-region limit after a panic; the frame allocator's text dump.
