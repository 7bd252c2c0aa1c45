# Models of the HAL's concurrent and memory-managing cores

Dafny models of four parts of this hardware abstraction layer, with proofs of what they are meant
to guarantee. `dafny verify dfyconfig.toml` checks everything.

**Graphics memory of qsd8k** (`Extents`, `HeapSpec`, `ChunkList`, `BestFitAllocator`, `PmemPool`,
`PmemUserspace`, `LockWord`). The best-fit allocator is modelled twice: as functions on a sequence
of extents, where its laws are proved, and as classes over a doubly linked list of heap-allocated
chunks, where every method is proved equal to the functions. On top of it stands the pmem
allocator with its roll-back, its rule never to recycle a range whose unmapping failed, and the
ranges it loses, for any interleaving of its locked steps. The lock word of a gralloc buffer is a state machine: any number
of threads, one load, store or compare-and-swap per step.

**Preview pipeline of mx5x** (`Ring`, `PreviewDirect`, `PreviewPostProcess`, `CameraSlots`). Each
semaphore operation, each access to shared data and each call to the capture device is one step
of the capture, post-process, show or encode thread. The theorems hold for every interleaving
while the preview runs, with the overlay absent or installed at any moment, and for any number of
buffers. The slot allocator that supplies the post-processing buffers is a small class.

**librpc** (`XdrBuffer`, `XdrCodec`, `XdrProcs`, `RpcMessage`, `RpcCall`, `InputHandoff`). The
codecs are methods that run in either direction over a bounded buffer and are proved against two
functions, one that encodes and one that decodes (RFC 4506); a description of a type can refer to
itself through a pointer, so the round trip covers recursive structures. Calls and replies
(RFC 5531, section 9) are followed from the client's buffer to the server's and back. The
hand-over of the clients' input buffers between the one receiving thread, the callers and the
callback threads is a state machine, for any number of clients, with one lock operation, wait, signal
or shared access per step.

**copybit** (`Copybit`). Clipping, rotation, scaling by unsigned integer division, flips, and the
batching of requests.

`Arithmetic` holds the 32-bit constants, and facts about products and remainders, that several modules
share.

A thread model takes each listed step as atomic. Calls into the kernel and the device are
arguments, so a statement ranges over all of their outcomes.

## Where the code does less than it promises

- A request of 2^32 - 31 bytes or more wraps to zero units. It is granted whenever some free chunk
  reaches a page boundary, and leaves an ill-formed chunk list (`HeapSpec.WrappedRequest`); the run
  theorems say exactly when all lists are well formed (`HeapSpec.ReachableIsWellFormed`).
- An offset of 2^31 or more is returned as a negative number, which alloc_pmem_buffer takes for an
  error without giving the chunk back (`PmemPool.LostExample`). A call that hands out nothing
  restores the list exactly if it was not granted such an offset (`PmemPool.FailureRestores`), and
  only heaps of more than 2^31 bytes ever lose a chunk (`PmemPool.NeverLeaksExactly`).
- A request for 0 bytes takes no chunk. If its sub-heap fails, rolling it back frees the chunk at the
  start of the heap, whoever has it (`PmemPool.EmptyFailure`); if it is handed out, freeing it does
  (`PmemPool.EmptyBuffer`).
- A heap size of 0, or one that wraps when rounded to pages, leaves an empty heap with a chunk
  (`SetSize` and `PmemUserspace.InitKeepsSafe` say exactly when).
- A pipeline with a single buffer, or a single output buffer, can stop for good once the overlay
  holds it; with two it never stops (`NeverStuckExactly`).
- One receiving thread serves all clients. If a dispatch function of one client is in a call, on its
  own client or on another, and another incoming call for the first is read before the reply, the
  receiving thread waits for the callback thread and that one for a reply nobody will read
  (`InputHandoff.NestedCallDeadlocks`, `BlockedForEver`). Nothing else stops but at rest
  (`InputHandoff.StopsExactly`), so there is no deadlock exactly if no dispatch function makes a call
  (`InputHandoff.NeverDeadlocksExactly`).
- A call that cannot be sent marks the input buffer free, even while the callback thread copies from
  it (`InputHandoff.FailedSendOverwrites`).
- A flush that fails is not tried again before the lock is released (`LockWord.FlushedBeforeRelease`).
- xdr_string accepts a length of 2^32 - 1, if the maximum allows it, and reads nothing
  (`XdrCodec.TakeText`).
- The client turns a reply "program locked" into "unknown host"; every other reply gets the status
  of its own name (`RpcMessage.StatusIsNamed`).
- xdr_bool keeps only whether a value is zero, so a value survives a round trip exactly if its
  booleans are 0 or 1 (`XdrCodec.NormIsIdentity`).
- A call is decoded from where its arguments were written exactly if the credential and the
  verifier are empty (`RpcMessage.ArgsAtFixedOffset`).
- A region rectangle that misses the destination has a negative size, which becomes a huge
  unsigned one and passes the test for empty requests (`Copybit.InvertedClipIsSent`). The
  destination is in bounds exactly if the clip is not inverted (`Copybit.DestinationInside`).
- Scaling multiplies in 32 bits: the source area of a scaled clip is right exactly if the products do
  not wrap (`Copybit.SourceColumns`, `Copybit.SourceRows`).
- Under rotation `set_rects` adds the top of the source rectangle to x and its left to y. An unscaled
  rotated picture is right exactly if the two are equal (`Copybit.ClippingKeepsPicture`,
  `Copybit.RotatedExample`).
- An error while the pmem area is initialised is remembered, unless it is -1, the value that also
  means "not tried yet": then the next call tries again. One above 0 is taken for a descriptor
  (`PmemUserspace.InitIsFinal`).
- The camera's slot allocator compares a total that may have wrapped with the size of the device
  (`CameraSlots.RegionHoldsBuffers`, `CameraSlots.WrappedTotal`).

## Model

| member | source | states |
|---|---|---|
| Extents.SearchIsComplete | msm7k/libgralloc-qsd8k/allocator.cpp:84-128 | the search fails exactly when no page-aligned run of that many consecutive free units exists anywhere in the heap |
| Extents.BestFit | msm7k/libgralloc-qsd8k/allocator.cpp:89-102 | the chosen chunk is the smallest free one that fits after padding, first among equals; none is chosen only if none fits |
| Extents.Extra | msm7k/libgralloc-qsd8k/allocator.cpp:90 | the padding is the least that reaches a page boundary |
| Extents.RunStaysInChunk | msm7k/libgralloc-qsd8k/allocator.cpp:79-129 | a run of free units never crosses a chunk boundary of a coalesced list |
| Extents.Cut | msm7k/libgralloc-qsd8k/allocator.cpp:104-126 | a chunk is split into free padding, the page-aligned allocation and a free rest that tile the chunk |
| Extents.CarveKeepsWellFormed | msm7k/libgralloc-qsd8k/allocator.cpp:104-127 | splitting keeps the list tiling the heap, coalesced, and its allocations page-aligned |
| Extents.LiveDisjoint | msm7k/libgralloc-qsd8k/allocator.cpp:79-165 | allocated chunks of a well-formed list are disjoint, page-aligned and inside the heap |
| Extents.MergeOnce | msm7k/libgralloc-qsd8k/allocator.cpp:144-154 | what one round of the merge loop folds and which chunk the next round looks at |
| Extents.ReleaseJoins | msm7k/libgralloc-qsd8k/allocator.cpp:142-160 | freeing a chunk joins it with its free neighbours into one chunk and touches nothing else |
| Extents.ReleaseKeepsWellFormed | msm7k/libgralloc-qsd8k/allocator.cpp:131-165 | freeing keeps the list well formed |
| Extents.ReleaseFreeIsNoop | msm7k/libgralloc-qsd8k/allocator.cpp:136-160 | freeing a chunk that is already free changes nothing |
| Extents.RoundTrip | msm7k/libgralloc-qsd8k/allocator.cpp:104-160 | freeing the allocation just carved restores the exact list |
| Extents.EmptyRoundTrip | msm7k/libgralloc-qsd8k/allocator.cpp:144-154 | the same for an empty allocation, which is folded into its left neighbour even if that one is not free |
| HeapSpec.RoundingIsExact | msm7k/libgralloc-qsd8k/allocator.cpp:84 | size_t rounding to units is exact if and only if the addition does not wrap; otherwise it gives 0 |
| HeapSpec.AllocGrants | msm7k/libgralloc-qsd8k/allocator.cpp:79-126 | a grant of a size that does not wrap is page-aligned, inside the heap, adds exactly one live chunk at the offset granted and is clear of all others; a refusal changes nothing and means there was no run |
| HeapSpec.SmallHeapLosesNothing | msm7k/libgralloc-qsd8k/allocator.cpp:103-128 | in a heap of at most 2^31 bytes no offset is returned as a negative number; one of exactly 2^31 bytes and a size that wraps excepted |
| HeapSpec.WrappedRequest | msm7k/libgralloc-qsd8k/allocator.cpp:84-128 | a size that wraps is granted, as an empty chunk, exactly if some free chunk reaches a page boundary, and then the list is not well formed any more |
| HeapSpec.WrappedExample | msm7k/libgralloc-qsd8k/allocator.cpp:84-126 | the largest size_t on a fresh heap of 8 MiB is granted at offset 0 and leaves an ill-formed list |
| HeapSpec.AllocKeepsWellFormed | msm7k/libgralloc-qsd8k/allocator.cpp:79-129 | alloc keeps the list well formed exactly if it does not grant a size that wraps |
| HeapSpec.DeallocReleases | msm7k/libgralloc-qsd8k/allocator.cpp:131-165 | exactly the chunk at the offset stops being live; any other offset changes nothing |
| HeapSpec.AllocThenDealloc | msm7k/libgralloc-qsd8k/allocator.cpp:79-165 | dealloc right after alloc restores the earlier list, for every size above 0, wrapping ones included |
| HeapSpec.FreeingAllRestoresHeap | msm7k/libgralloc-qsd8k/allocator.cpp:131-165 | freeing every live allocation, in any order and with stray offsets in between, leaves one free chunk covering the heap |
| HeapSpec.ReachableIsWellFormed | msm7k/libgralloc-qsd8k/allocator.cpp:43-165 | from a fresh heap, over any requests, every list on the way is well formed exactly if every size that wrapped found no free chunk that reaches a page boundary |
| HeapSpec.SmallRequestsAreHarmless | msm7k/libgralloc-qsd8k/allocator.cpp:60-66 | requests that do not wrap keep every reachable list well formed |
| ChunkList.LinkedList.InsertAfter | msm7k/libgralloc-qsd8k/allocator.h:47-53 | the new node follows the given one; both directions of links stay consistent |
| ChunkList.LinkedList.InsertBefore | msm7k/libgralloc-qsd8k/allocator.h:55-61 | the new node precedes the given one; both directions of links stay consistent |
| ChunkList.LinkedList.InsertHead | msm7k/libgralloc-qsd8k/allocator.h:63-73 | the new node comes first |
| ChunkList.LinkedList.InsertTail | msm7k/libgralloc-qsd8k/allocator.h:75-84 | the new node comes last |
| ChunkList.LinkedList.Remove | msm7k/libgralloc-qsd8k/allocator.h:86-92 | the node leaves the list and the others keep their order |
| BestFitAllocator.SimpleBestFitAllocator.SetSize | msm7k/libgralloc-qsd8k/allocator.cpp:43-53 | the heap becomes one free chunk; the result is well formed exactly if the size is not 0 and rounding does not wrap; a second call is refused |
| BestFitAllocator.SimpleBestFitAllocator.Allocate | msm7k/libgralloc-qsd8k/allocator.cpp:60-66 | the linked list afterwards is what alloc on sequences yields; the result is the offset as a ssize_t or the error, negative exactly for an error or an offset of 2^31 and more; the list stays valid exactly if no size that wraps is granted |
| BestFitAllocator.SimpleBestFitAllocator.Deallocate | msm7k/libgralloc-qsd8k/allocator.cpp:68-77 | the linked list afterwards is what dealloc on sequences yields; the result says whether the offset was found |
| BestFitAllocator.SimpleBestFitAllocator.DoAlloc | msm7k/libgralloc-qsd8k/allocator.cpp:79-129 | alloc on nodes equals alloc on sequences, and returns the offset as a ssize_t |
| BestFitAllocator.SimpleBestFitAllocator.Search | msm7k/libgralloc-qsd8k/allocator.cpp:86-102 | the scan with its early exit finds the best fit |
| BestFitAllocator.SimpleBestFitAllocator.CarveNode | msm7k/libgralloc-qsd8k/allocator.cpp:104-126 | splitting nodes equals carving the extent |
| BestFitAllocator.SimpleBestFitAllocator.DoDealloc | msm7k/libgralloc-qsd8k/allocator.cpp:131-165 | dealloc on nodes equals dealloc on sequences |
| BestFitAllocator.SimpleBestFitAllocator.MergeNodes | msm7k/libgralloc-qsd8k/allocator.cpp:142-160 | the merge loop on nodes equals releasing the extent |
| BestFitAllocator.ExactIsBest | msm7k/libgralloc-qsd8k/allocator.cpp:97-99 | the first exact match is the best fit, so stopping there never changes the choice |
| BestFitAllocator.CarvedInTwoCuts | msm7k/libgralloc-qsd8k/allocator.cpp:108-125 | padding in front and then splitting off the rest gives the carved list |
| BestFitAllocator.HeapRounding | msm7k/libgralloc-qsd8k/allocator.cpp:48 | a heap size is rounded up to whole pages if it fits in size_t, and to 0 if not |
| BestFitAllocator.HeapExample | msm7k/libgralloc-qsd8k/allocator.cpp:48-51 | with pages of 4096 bytes a heap of 2^32 - 1 bytes is rounded to nothing and one of 2^32 - 4096 bytes is kept; a chunk without units is not a well-formed heap |
| PmemPool.OwnedAreDisjoint | msm7k/libgralloc-qsd8k/pmemalloc.cpp:145-213 | buffers held by clients, stranded, lost, or still being worked on by a call never overlap |
| PmemPool.DisjointExactly | msm7k/libgralloc-qsd8k/pmemalloc.cpp:145-213 | disjoint buffers are exactly those that have no byte in common |
| PmemPool.ClaimKeepsInv | msm7k/libgralloc-qsd8k/pmemalloc.cpp:152-156 | allocate claims a range clear of every other; it claims nothing exactly if it is refused or granted an offset of 2^31 or more, and leaves the chunk list alone exactly if it is refused; the invariant is kept exactly if no size that wraps is granted |
| PmemPool.HandKeepsInv | msm7k/libgralloc-qsd8k/pmemalloc.cpp:163-187 | a claimed range becomes a buffer of its client |
| PmemPool.ReturnKeepsInv | msm7k/libgralloc-qsd8k/pmemalloc.cpp:179-208 | deallocate gives back a claimed range and no other |
| PmemPool.UnmapKeepsInv | msm7k/libgralloc-qsd8k/pmemalloc.cpp:201-208 | a buffer may be given back only if unmapping succeeded, and is stranded otherwise |
| PmemPool.HandedExactly | msm7k/libgralloc-qsd8k/pmemalloc.cpp:162-187 | a granted range is handed out with result 0 exactly if opening, connecting and mapping all succeeded; it is given back with -errno exactly if the first of them that did not return 0 returned a negative |
| PmemPool.FailureRestores | msm7k/libgralloc-qsd8k/pmemalloc.cpp:152-180 | a call that hands out nothing leaves everything as it was exactly if it was not granted an offset of 2^31 or more; granted one, it hands out nothing, whatever the device answers |
| PmemPool.EmptyFailure | msm7k/libgralloc-qsd8k/pmemalloc.cpp:152-180 | rolling back a request for 0 bytes frees the chunk at the start of the heap, so the list is as before exactly if that chunk is free |
| PmemPool.EmptyBuffer | msm7k/libgralloc-qsd8k/pmemalloc.cpp:152-208 | a buffer of 0 bytes that was handed out and is freed frees the chunk at the start of the heap, whoever has it; nothing has changed exactly if that chunk is free |
| PmemPool.WrappedHandout | msm7k/libgralloc-qsd8k/pmemalloc.cpp:152-187 | when a size that wraps is handed out the chunk list is no longer well formed |
| PmemPool.AllocKeepsInv | msm7k/libgralloc-qsd8k/pmemalloc.cpp:145-193 | an allocation of any size above 0 hands out one buffer, clear of all others unless the size wraps, or leaves everything as it was unless it is granted an offset of 2^31 or more; the invariant is lost exactly if a size that wraps is handed out or granted there |
| PmemPool.FreeKeepsInv | msm7k/libgralloc-qsd8k/pmemalloc.cpp:196-213 | a freed buffer, and only it, leaves its client; if unmapping failed its range stays allocated |
| PmemPool.StrandedNeverReused | msm7k/libgralloc-qsd8k/pmemalloc.cpp:145-213 | over every interleaving of calls, with arbitrary device outcomes and no size that wraps granted, no two buffers overlap, and a range whose unmapping failed or that was lost is never handed out again |
| PmemPool.LostExample | msm7k/libgralloc-qsd8k/pmemalloc.cpp:152-156 | a heap of 3 GiB whose lower 2 GiB are held: a request for 4096 bytes, in which every device call succeeds, returns an error and loses a page |
| PmemPool.NeverLeaksExactly | msm7k/libgralloc-qsd8k/pmemalloc.cpp:145-213 | from a fresh heap some run of calls loses a chunk if and only if the heap has more than 2^31 bytes |
| PmemUserspace.InitKeepsSafe | msm7k/libgralloc-qsd8k/pmemalloc.cpp:83-142 | setting up the heap keeps the area safe exactly if the device size is positive and does not wrap when rounded; otherwise the heap stays empty |
| PmemUserspace.AllocKeepsSafe | msm7k/libgralloc-qsd8k/pmemalloc.cpp:145-193 | a call, the one that sets up the heap included, hands out one buffer or leaves buffers and chunks as they were, unless it is granted an offset of 2^31 or more; the area is safe afterwards exactly if the heap fitted and no size that wraps was handed out or granted there |
| PmemUserspace.FirstInit | msm7k/libgralloc-qsd8k/pmemalloc.cpp:83-142 | the first try: its error is that of opening or mapping, or else of asking for the size; the heap gets the size reported, or 8 MiB if asking failed; descriptor and base are those of the mapping |
| PmemUserspace.InitIsFinal | msm7k/libgralloc-qsd8k/pmemalloc.cpp:121-142 | a success and every error but -1 are final, whatever the device says later; an error above 0 is taken for a descriptor |
| PmemUserspace.AllocOutcome | msm7k/libgralloc-qsd8k/pmemalloc.cpp:145-193 | what a call returns in terms of the first try, the grant and the three outcomes of the sub-heap |
| PmemUserspace.PmemUserspaceAllocator.InitPmemAreaLocked | msm7k/libgralloc-qsd8k/pmemalloc.cpp:83-118 | for every answer of the device the state afterwards is that of the specification, and so is the error; descriptor and base are those of the mapping exactly if opening and mapping succeeded, and unchanged otherwise |
| PmemUserspace.PmemUserspaceAllocator.InitPmemArea | msm7k/libgralloc-qsd8k/pmemalloc.cpp:121-142 | the device is tried while the master fd has its initial value; an error is remembered in it |
| PmemUserspace.PmemUserspaceAllocator.AllocPmemBuffer | msm7k/libgralloc-qsd8k/pmemalloc.cpp:145-193 | state, result and buffer are those of the specification, for every size, every answer of the device, and offsets that come back negative |
| PmemUserspace.PmemUserspaceAllocator.TakeSubHeap | msm7k/libgralloc-qsd8k/pmemalloc.cpp:151-189 | a negative result of allocate is -ENOMEM, whatever it stands for; a granted range is handed out with result 0 exactly if the sub-heap was opened, connected and mapped, and given back with -errno exactly if the first call that did not return 0 returned a negative |
| PmemUserspace.PmemUserspaceAllocator.FreePmemBuffer | msm7k/libgralloc-qsd8k/pmemalloc.cpp:196-213 | the range is recycled exactly if unmapping returned 0; the result is always 0 |
| LockWord.FieldsAreBits | msm7k/libgralloc-qsd8k/gralloc_priv.h:101-105 | the fields of the lock word are its 32 bits, and counting on the fields is counting on the word |
| LockWord.CountHasRoom | msm7k/libgralloc-qsd8k/mapper.cpp:228 | one more holder leaves the flags alone exactly while the count is below 0x3FFFFFFF |
| LockWord.TakingIsObserved | msm7k/libgralloc-qsd8k/mapper.cpp:218-249 | a thread counts as holder, as writer if it wants to write, and its software write to cached pmem memory as not flushed, from the swap that takes the lock |
| LockWord.DroppingIsObserved | msm7k/libgralloc-qsd8k/mapper.cpp:310-314 | a thread stops counting as holder with the swap that drops the lock |
| LockWord.FlushIsObserved | msm7k/libgralloc-qsd8k/mapper.cpp:281-291 | only a flush that succeeded cleans the memory |
| LockWord.MappingIsObserved | msm7k/libgralloc-qsd8k/mapper.cpp:252-263 | the buffer counts as mapped once more exactly if the kernel mapped it or it is the framebuffer |
| LockWord.StepKeepsInv | msm7k/libgralloc-qsd8k/mapper.cpp:190-316 | every load, store and compare-and-swap of any thread keeps the invariant |
| LockWord.Exclusion | msm7k/libgralloc-qsd8k/mapper.cpp:203-232 | the count is the number of holders, and WRITE means exactly one holder |
| LockWord.BusyChangesNothing | msm7k/libgralloc-qsd8k/mapper.cpp:207-216 | -EBUSY is returned exactly when the holders exclude the request, and changes nothing |
| LockWord.WriterUnlocksFirstTime | msm7k/libgralloc-qsd8k/mapper.cpp:293-313 | the write owner's unlock wins its first compare-and-swap and leaves the word free |
| LockWord.NobodyTouchesAWriteHeldWord | msm7k/libgralloc-qsd8k/mapper.cpp:203-313 | while the word is write-held no step of another thread changes the word, the owner, the flush flag or the base |
| LockWord.UnlockNeverInvalid | msm7k/libgralloc-qsd8k/mapper.cpp:305-308 | unlocking what one holds never returns -EINVAL |
| LockWord.FlushedBeforeRelease | msm7k/libgralloc-qsd8k/mapper.cpp:246-290 | software writes to pmem memory are flushed before WRITE is released, and without WRITE there is nothing to flush, but for a flush that the kernel failed |
| LockWord.MappedOnce | msm7k/libgralloc-qsd8k/mapper.cpp:252-267 | the buffer is mapped at most once, and an address returned without error is mapped |
| LockWord.EveryLockReturnsRight | msm7k/libgralloc-qsd8k/mapper.cpp:190-267 | after every legal interleaving: a call that took the lock reported an error exactly if it tried to map the buffer and that failed; if it asked for an address and reported none, the buffer is mapped at the address it stored; a call that an idle thread made has returned |
| LockWord.EveryInterleaving | msm7k/libgralloc-qsd8k/mapper.cpp:190-316 | count, exclusion, single mapping, and without WRITE nothing to flush that a flush was not tried for, after every legal interleaving |
| LockWord.EveryStepOfEveryRun | msm7k/libgralloc-qsd8k/mapper.cpp:190-316 | at every step of every legal interleaving: WRITE is released by its owner with nothing left to flush that a flush was not tried for, the first compare-and-swap of its unlock succeeds, no unlock fails, and a refused lock changes nothing |
| LockWord.AloneFinishes | msm7k/libgralloc-qsd8k/mapper.cpp:190-316 | a thread that runs alone is through with its call after at most 24 steps, whatever the others were doing |
| Ring.Advance | mx5x/libcamera/CameraHal.cpp:1423-1424 | incrementing a head and reducing it modulo the ring size moves it to the next slot |
| Ring.Apart | mx5x/libcamera/CameraHal.cpp:1422-1424 | frames less than a ring length apart are in different slots |
| Ring.StoreKeepsRing | mx5x/libcamera/CameraHal.cpp:1422 | storing a frame overwrites only the slot of the frame one ring length before |
| Ring.DequeueKeepsOwned | mx5x/libcamera/CameraHal.cpp:1418 | a dequeued buffer belongs to exactly one frame in flight |
| Ring.RequeueKeepsOwned | mx5x/libcamera/CameraHal.cpp:1553 | queueing back the oldest frame in flight gives the device a buffer it did not have |
| PreviewDirect.InitInv | mx5x/libcamera/CameraHal.cpp:1351-1374 | the initial heads and semaphores satisfy the invariant |
| PreviewDirect.CaptureKeepsInv | mx5x/libcamera/CameraHal.cpp:1403-1434 | every step of the capture thread keeps the invariant |
| PreviewDirect.ShowKeepsInv | mx5x/libcamera/CameraHal.cpp:1486-1567 | every step of the show thread keeps the invariant |
| PreviewDirect.EncodeKeepsInv | mx5x/libcamera/CameraHal.cpp:1569-1615 | every step of the encode thread keeps the invariant |
| PreviewDirect.ReadsNextFrame | mx5x/libcamera/CameraHal.cpp:1503-1585 | what the show and encode threads read from the ring is the next frame in dequeue order |
| PreviewDirect.QueuesOldest | mx5x/libcamera/CameraHal.cpp:1537-1553 | the buffer queued back is that of the oldest frame in flight, also while the overlay holds one |
| PreviewDirect.InvIsSafe | mx5x/libcamera/CameraHal.cpp:1403-1615 | no slot is overwritten before both readers have read it; a buffer is queued back only after its own encoding, and never twice; no buffer in use is with the device; frames are seen in order; buffers are conserved |
| PreviewDirect.StuckExactly | mx5x/libcamera/CameraHal.cpp:1403-1615 | the threads can all be blocked in one situation only: a single buffer, held by the overlay |
| PreviewDirect.RunKeepsInv | mx5x/libcamera/CameraHal.cpp:1403-1615 | the invariant holds after every run |
| PreviewDirect.EveryInterleaving | mx5x/libcamera/CameraHal.cpp:1351-1615 | safety after every interleaving from the start, and no deadlock with two buffers or without an overlay |
| PreviewDirect.NeverStuckExactly | mx5x/libcamera/CameraHal.cpp:1351-1615 | no run from the start ends with all threads stuck if and only if there are at least two buffers |
| PreviewDirect.LongRunsShowFrames | mx5x/libcamera/CameraHal.cpp:1351-1615 | no thread runs on the spot or is left behind: a run of 19 f + 11 n + 18 steps or more has shown more than f frames, and captured and encoded as many but for one |
| PreviewPostProcess.InitInv | mx5x/libcamera/CameraHal.cpp:1351-1374 | the initial heads and semaphores satisfy the invariant |
| PreviewPostProcess.CaptureKeepsInv | mx5x/libcamera/CameraHal.cpp:1403-1434 | every step of the capture thread keeps the invariant |
| PreviewPostProcess.ProcessKeepsInv | mx5x/libcamera/CameraHal.cpp:1436-1485 | every step of the post-process thread keeps the invariant |
| PreviewPostProcess.ShowKeepsInv | mx5x/libcamera/CameraHal.cpp:1486-1567 | every step of the show thread keeps the invariant |
| PreviewPostProcess.EncodeKeepsInv | mx5x/libcamera/CameraHal.cpp:1569-1615 | every step of the encode thread keeps the invariant |
| PreviewPostProcess.ProcessReadsNext | mx5x/libcamera/CameraHal.cpp:1456 | the post-processor reads the next frame in dequeue order, from an intact slot |
| PreviewPostProcess.ReadsNextOutput | mx5x/libcamera/CameraHal.cpp:1508-1592 | what the show and encode threads find in their slot is the next processed frame |
| PreviewPostProcess.OutputsAreSafe | mx5x/libcamera/CameraHal.cpp:1461-1471 | the output written is neither the one last pushed to the overlay nor one still to be shown or encoded |
| PreviewPostProcess.InvIsSafe | mx5x/libcamera/CameraHal.cpp:1436-1615 | safe outputs; a capture buffer is queued back only after it was processed, and never twice; order; conservation |
| PreviewPostProcess.StuckExactly | mx5x/libcamera/CameraHal.cpp:1403-1615 | the threads can all be blocked in one situation only: a single output buffer, held by the overlay, with all capture buffers waiting |
| PreviewPostProcess.EveryInterleaving | mx5x/libcamera/CameraHal.cpp:1351-1615 | safety after every interleaving from the start, and no deadlock with two output buffers or without an overlay |
| PreviewPostProcess.NeverStuckExactly | mx5x/libcamera/CameraHal.cpp:1351-1615 | no run from the start ends with all threads stuck if and only if there are at least two output buffers, however many capture buffers there are |
| PreviewPostProcess.LongRunsShowFrames | mx5x/libcamera/CameraHal.cpp:1351-1615 | the same: a run of 27 f + 5 n + 21 m + 30 steps or more has shown more than f frames |
| CameraSlots.FirstFreeInside | mx5x/libcamera/Camera_pmem.cpp:131-142 | the first free of all 64 slots is among the first n exactly while fewer than n are in use |
| CameraSlots.DivisionRecoversSlot | mx5x/libcamera/Camera_pmem.cpp:153 | deAllocate's unsigned division recovers the slot from any address in its buffer |
| CameraSlots.BuffersAreDisjoint | mx5x/libcamera/Camera_pmem.cpp:136-138 | buffers of different slots do not overlap |
| CameraSlots.InsideRegion | mx5x/libcamera/Camera_pmem.cpp:72-81 | a buffer lies in the mapped region exactly if its slot is one of the first n |
| CameraSlots.EveryRunStaysInside | mx5x/libcamera/Camera_pmem.cpp:122-163 | over every run with at most n buffers outstanding every slot in use is among the first n |
| CameraSlots.RegionHoldsBuffers | mx5x/libcamera/Camera_pmem.cpp:74-81 | the mapped region holds all buffers exactly if the product of number and size does not wrap |
| CameraSlots.WrappedTotal | mx5x/libcamera/Camera_pmem.cpp:72-75 | three buffers of 0x55556000 bytes count as 8192 bytes, in which not one of them fits |
| CameraSlots.AlignedSize | mx5x/libcamera/Camera_pmem.cpp:72 | a buffer size is rounded up to the next multiple of 4096 exactly if it is positive and rounding does not overflow an int; otherwise the result is 0 or negative |
| CameraSlots.PmemAllocator.constructor | mx5x/libcamera/Camera_pmem.cpp:44-101 | sizes are rounded as the int arithmetic does; the allocator is usable, at the mapping's and the device's address, exactly if every device call succeeded and the 32-bit total is within the device, and then its buffers have a positive size exactly if the size asked for is positive and can be rounded up |
| CameraSlots.PmemAllocator.Allocate | mx5x/libcamera/Camera_pmem.cpp:122-144 | the first free slot is taken and described; otherwise an error and no change |
| CameraSlots.PmemAllocator.DeAllocate | mx5x/libcamera/Camera_pmem.cpp:146-163 | exactly the slot of the address is freed if it was in use; otherwise an error and no change |
| XdrBuffer.WordRoundTrip | msm7k/librpc/svc_clnt_common.c:115 | a word is read back from its four bytes |
| XdrBuffer.BytesOfWord | msm7k/librpc/svc_clnt_common.c:112-118 | the four bytes of a word, by division and remainder, most significant first |
| XdrBuffer.WordOfBytes | msm7k/librpc/svc_clnt_common.c:193-207 | what any four bytes stand for |
| XdrBuffer.PaddingIsZero | msm7k/librpc/svc_clnt_common.c:153-157 | the padding is at most three bytes, all 0 |
| XdrBuffer.SendsKeepCursor | msm7k/librpc/svc_clnt_common.c:112-158 | after any sequence of sends, failed ones included, the cursor is a multiple of 4 within the message, and nothing written is lost |
| XdrBuffer.Xdr.SendWord | msm7k/librpc/svc_clnt_common.c:112-118 | succeeds exactly if four bytes fit, and then appends the word |
| XdrBuffer.Xdr.SendBytes | msm7k/librpc/svc_clnt_common.c:149-158 | succeeds exactly if the padded bytes fit, and then appends them with zero padding |
| XdrBuffer.Xdr.RecvWord | msm7k/librpc/svc_clnt_common.c:193-207 | succeeds exactly if four bytes are left, and then yields them as a word |
| XdrBuffer.Xdr.RecvBytes | msm7k/librpc/svc_clnt_common.c:244-251 | for every length, the signed 32-bit sum decides and moves the cursor to the next multiple of 4; the bytes are those of the message if that many are left |
| XdrBuffer.IntSumAgrees | msm7k/librpc/svc_clnt_common.c:244-251 | the sum that decides is the int that agrees with cursor and length modulo 2^32 |
| XdrBuffer.Xdr.MsgStart | msm7k/librpc/svc_clnt_common.c:29-73 | a message starts with the transaction number, which only a call increments, and the type |
| XdrBuffer.Xdr.Read | msm7k/librpc/svc_clnt_common.c:97-109 | a packet of at least two words is received whole; anything else is an error |
| XdrCodec.WholeWords | msm7k/librpc/xdr.c:10-528 | every encoding is a whole number of words |
| XdrCodec.ScalarRoundTrip | msm7k/librpc/xdr.c:98-135 | integers of at most 32 bits survive widening to a word and narrowing back |
| XdrCodec.HyperRoundTrip | msm7k/librpc/xdr.c:141-163 | 64-bit integers survive being sent as two words |
| XdrCodec.HyperIsBigEndian | msm7k/librpc/xdr.c:146-151 | the two words of a hyper are its eight bytes in two's complement, most significant first |
| XdrCodec.NormIsIdentity | msm7k/librpc/xdr.c:222-242 | a value is unchanged by the round trip exactly if all its booleans are 0 or 1 |
| XdrCodec.RoundTrip | msm7k/librpc/xdr.c:10-528 | wherever the encoding of a value within its maxima stands, decoding yields the value and consumes exactly those bytes |
| XdrCodec.RoundTripAll | msm7k/librpc/xdr.c:203-220 | the same for the elements of vectors and arrays |
| XdrCodec.ArrayRoundTrip | msm7k/librpc/xdr.c:336-394 | the same for counted arrays |
| XdrCodec.PointerRoundTrip | msm7k/librpc/xdr.c:253-322 | the same for pointers, null ones and those that close a recursive structure |
| XdrCodec.DecodedIsTyped | msm7k/librpc/xdr.c:10-528 | of any message at any position: what decoding yields is of the type and within its maxima, with booleans 0 or 1; strings with zero bytes in them and the null string of length 2^32 - 1 are the only exceptions |
| XdrCodec.DecodedConsumes | msm7k/librpc/xdr.c:10-528 | decoding consumes as many bytes as encoding what came out would write |
| XdrCodec.AnyWord | msm7k/librpc/xdr.c:98-135 | any word as a number is the one of the width that agrees with it modulo the width; any word but 0 is true |
| XdrCodec.AnyHyper | msm7k/librpc/xdr.c:141-163 | any two words are the 64-bit number that agrees with them |
| XdrCodec.AnyBytes | msm7k/librpc/xdr.c:10-36 | counted bytes are decoded exactly if the length is within the maximum and that many are there; they are the bytes after the length, and the cursor goes to the next word |
| XdrCodec.AnyString | msm7k/librpc/xdr.c:481-528 | a string is decoded as bytes are, but for a length of 2^32 - 1 that the maximum allows |
| XdrProcs.XdrUInt | msm7k/librpc/xdr.c:83-96 | one word is written, or read, as the direction says |
| XdrProcs.XdrScalar | msm7k/librpc/xdr.c:98-135 | scalar codecs write the widened and read the narrowed word |
| XdrProcs.XdrHyper | msm7k/librpc/xdr.c:141-163 | the two words are written, or read, high word first |
| XdrProcs.XdrBool | msm7k/librpc/xdr.c:222-242 | the flag is written as 0 or 1; any non-zero word is read as 1 |
| XdrProcs.XdrOpaque | msm7k/librpc/xdr.c:412-430 | the bytes are written with padding, or that many are read |
| XdrProcs.XdrBytes | msm7k/librpc/xdr.c:10-36 | encoding succeeds exactly if the length is within the maximum and everything fits; decoding is as specified |
| XdrProcs.XdrString | msm7k/librpc/xdr.c:481-528 | encoding succeeds exactly for a string that is not null, within the maximum and fits; decoding is as specified, a length of 2^32 - 1 included, after which nothing is read |
| XdrProcs.XdrPointer | msm7k/librpc/xdr.c:305-322 | a flag, and the target only if there is one |
| XdrProcs.XdrVector | msm7k/librpc/xdr.c:203-220 | exactly the given number of elements |
| XdrProcs.XdrArray | msm7k/librpc/xdr.c:336-394 | a count that is compared with the maximum in both directions, and then the elements |
| XdrProcs.PutElems | msm7k/librpc/xdr.c:380-383 | the loop over the elements writes them all, or fails exactly if one is inadmissible or does not fit |
| XdrProcs.TakeElems | msm7k/librpc/xdr.c:380-383 | the loop over the elements reads what decoding them one after the other yields |
| XdrProcs.Code | msm7k/librpc/xdr.c:10-528 | encoding succeeds exactly if the value is within its maxima and fits, and then appends its encoding; what was written before stays in any case; decoding is as specified |
| RpcMessage.SendAuth | msm7k/librpc/rpc.c:127-149 | flavour, length and padded body |
| RpcMessage.RecvAuth | msm7k/librpc/clnt.c:421-448 | succeeds exactly if the length is 0 |
| RpcMessage.FixedOffsets | msm7k/librpc/svc.c:374-381 | a header written field by field has its fields at the fixed offsets |
| RpcMessage.ArgsAtFixedOffset | msm7k/librpc/svc.c:402-407 | the arguments begin at the fixed offset exactly if credential and verifier are empty |
| RpcMessage.CallMsgStart | msm7k/librpc/rpc.c:7-27 | the call header is written whole, or fails exactly if it does not fit |
| RpcMessage.SendReplyHeader | msm7k/librpc/rpc.c:102-123 | the header is written, or fails exactly if a code is unknown or it does not fit |
| RpcMessage.RecvReplyHeader | msm7k/librpc/clnt.c:513-533 | the header is read as specified |
| RpcMessage.ReplyRoundTrip | msm7k/librpc/clnt.c:421-533 | a header that was sent is read back whole, exactly if its codes are known and it has no verifier body |
| RpcMessage.VerifierMustBeEmpty | msm7k/librpc/clnt.c:438-445 | in any message an accepted reply whose verifier length is not 0 is rejected |
| RpcMessage.ReadExactly | msm7k/librpc/clnt.c:421-533 | of any message: a header is read exactly if a reply that the protocol knows, with an empty verifier, stands there, and it is that one |
| RpcMessage.ReplyOffsets | msm7k/librpc/rpc.c:42-123 | the fields of every reply header by their offsets: status, verifier, and the low and high version of a mismatch in this order |
| RpcMessage.StatusIsNamed | msm7k/librpc/clnt.c:381-393 | every reply gets the client status of its own name, except that a locked program becomes an unknown host |
| RpcCall.ClntSend | msm7k/librpc/clnt.c:321-344 | the packet is the header followed by the arguments; it is made exactly if the arguments are within their maxima and fit |
| RpcCall.ClntReceive | msm7k/librpc/clnt.c:361-402 | status and result as the reply in the buffer determines them |
| RpcCall.SuccessExactly | msm7k/librpc/clnt.c:361-402 | from the bytes of the reply: the call succeeds exactly if the numbers agree, an accepted success with an empty verifier follows and the results decode, and yields those; if only they do not decode it is RPC_CANTDECODERES; a different number is RPC_CANTRECV whatever follows |
| RpcCall.ReplyDecidesStatus | msm7k/librpc/clnt.c:371-405 | every reply that the protocol knows, with an empty verifier and the right number, gives the call the status of its own name, a locked program unknown host |
| RpcCall.CannotReceiveExactly | msm7k/librpc/clnt.c:361-378 | the call returns RPC_CANTRECV exactly if the numbers differ or no such reply follows |
| RpcCall.Server.Dispatch | msm7k/librpc/svc.c:362-415 | a message is taken exactly if its words at the fixed offsets say that it is a call for this program and version; the cursor is put where the arguments start |
| RpcCall.Server.GetArgs | msm7k/librpc/svc.c:463-472 | the arguments are decoded while a call is being served |
| RpcCall.Server.SendReply | msm7k/librpc/svc.c:485-511 | the reply has the call's number; it is sent exactly if the result is within its maxima and fits |
| RpcCall.Server.Serve | msm7k/librpc/svc.c:362-415 | what a call in the buffer is answered with, for any dispatch function |
| RpcCall.CallReachesServer | msm7k/librpc/svc.c:374-407 | the server finds program, version and procedure, and decodes the arguments from exactly where they were written |
| RpcCall.ReplyReachesClient | msm7k/librpc/clnt.c:361-402 | the reply passes the check of the number and yields the results with RPC_SUCCESS |
| RpcCall.Call | msm7k/librpc/clnt.c:296-419 | a call from end to end equals applying the dispatch function, and exactly when it fails or is never answered |
| InputHandoff.StepKeepsInv | msm7k/librpc/clnt.c:75-415 | every lock operation, wait, signal and shared access of any thread at any client keeps the invariant |
| InputHandoff.InvIsSafe | msm7k/librpc/clnt.c:151-156 | at every client the receiving thread reads only into a buffer nobody uses; a reply is signalled to the one caller that waits; no signal and no callback is lost |
| InputHandoff.StopsExactly | msm7k/librpc/clnt.c:75-415 | with any number of clients all threads stop exactly in two situations: at rest, or when the receiving thread waits for the callback thread of a client whose dispatch function is in a call, on this client or another, that waits for a reply |
| InputHandoff.NestedCallDeadlocks | msm7k/librpc/clnt.c:158-268 | from every start, for any clients c and d, equal or not, some run in which only a dispatch function of c calls d ends in that deadlock |
| InputHandoff.EveryInterleaving | msm7k/librpc/clnt.c:75-415 | safety after every interleaving, with any number of clients and threads; whatever cannot go on is at rest or in that deadlock, and at rest if no dispatch function makes a call |
| InputHandoff.RunsEnd | msm7k/librpc/clnt.c:75-415 | while no new message is read and no new call made every run ends, after a number of steps that the state bounds; so the threads come to rest, or into the deadlock |
| InputHandoff.BlockedForEver | msm7k/librpc/clnt.c:201-269 | once the receiving thread is blocked so, it stays blocked over every run of the other threads |
| InputHandoff.IncomingCallDeadlocks | msm7k/librpc/clnt.c:251 | whenever a dispatch function is in a call and nothing else can go on, one more incoming call for its client is the deadlock |
| InputHandoff.NeverDeadlocksExactly | msm7k/librpc/clnt.c:75-415 | whatever dispatch functions may call whatever clients: no run deadlocks if and only if none may call any |
| InputHandoff.FailedSendOverwrites | msm7k/librpc/clnt.c:347-413 | a call that cannot be sent frees the input buffer while the callback thread copies from it, and the receiving thread may read into it |
| InputHandoff.CallMeetsCallback | msm7k/librpc/clnt.c:133-350 | from every start some run comes to where that can happen |
| Copybit.ScalesInside | msm7k/libcopybit/copybit.cpp:102-107 | scaled position plus scaled size stay within the source, even if the products wrap |
| Copybit.ScalesExactly | msm7k/libcopybit/copybit.cpp:102-107 | where the product does not wrap, scaling is division rounded down |
| Copybit.SourceInside | msm7k/libcopybit/copybit.cpp:157-194 | with the source rectangle at the origin the scaled source is inside the source image, for every rotation and flip and all int coordinates |
| Copybit.DestinationInside | msm7k/libcopybit/copybit.cpp:162-168 | the destination is inside the destination image exactly if the clip is not inverted, for all int coordinates |
| Copybit.SourceColumns | msm7k/libcopybit/copybit.cpp:161-193 | for every rotation, flip and scale: the columns taken are the distance of the clip from the edge of the destination rectangle plus the source offset, and its size, each scaled and rounded down, seen from the other edge under a flip; each is right exactly if its product does not wrap or is not needed |
| Copybit.SourceRows | msm7k/libcopybit/copybit.cpp:161-193 | the same for the rows |
| Copybit.StretchedExample | msm7k/libcopybit/copybit.cpp:186-187 | the lower right quarter of a picture stretched to twice its size comes from (50, 50) |
| Copybit.PixelsOfRequest | msm7k/libcopybit/copybit.cpp:157-165 | a pixel belongs to the destination of a request exactly if it is in the image, in the rectangle of the region and in the destination rectangle |
| Copybit.RefusedExactly | msm7k/libcopybit/copybit.cpp:355-376 | which calls are refused, by the alpha value, the format, the sides of the source rectangle and the sizes of the images |
| Copybit.SkippedExactly | msm7k/libcopybit/copybit.cpp:391-395 | a clip with pixels is skipped exactly if its source is less than one pixel wide or high |
| Copybit.NothingIsSkipped | msm7k/libcopybit/copybit.cpp:391-395 | a clip without pixels is skipped |
| Copybit.OneRequest | msm7k/libcopybit/copybit.cpp:383-397 | a rectangle asks for its own request, if that is not empty |
| Copybit.RequestsInOrder | msm7k/libcopybit/copybit.cpp:381-397 | the requests of two regions one after the other are those of the first and then those of the second |
| Copybit.InvertedClipIsSent | msm7k/libcopybit/copybit.cpp:384-395 | a clip that misses the destination passes the tests for empty requests, with areas in neither image |
| Copybit.ClippingKeepsPicture | msm7k/libcopybit/copybit.cpp:157-194 | without scaling every clip shows at each of its pixels what the whole picture shows there, for every rotation and flip, exactly if the picture is not rotated or its source offsets are equal |
| Copybit.RotatedExample | msm7k/libcopybit/copybit.cpp:157-194 | a source at (10, 0) turned by 90 degrees: the first pixel shows (0, 59), outside the source rectangle, instead of (10, 49) |
| Copybit.BlitOfEverything | msm7k/libcopybit/copybit.cpp:412-421 | an unclipped blit takes the whole source to the whole destination, however rotated and flipped |
| Copybit.RequestsAreInside | msm7k/libcopybit/copybit.cpp:383-389 | every request of an uninverted clip is inside both images |
| Copybit.BatchesHoldEverything | msm7k/libcopybit/copybit.cpp:378-404 | the batches hold every request once, in order, at most twelve each |
| Copybit.SubmitAll | msm7k/libcopybit/copybit.cpp:381-404 | the batches go out in order until one fails; all of them if none does |
| Copybit.StretchCopybit | msm7k/libcopybit/copybit.cpp:339-409 | invalid calls are refused with nothing sent; otherwise as the loop, wherever the source does not divide by zero |

## Left out

- SetSize: the page size is a parameter that divides 2^32; the masks of the source are remainders, which is the same for powers of two.
- Extents.ReleaseFreeIsNoop: the LOG_FATAL_IF checks of dealloc, which stop a debug build when a chunk is freed twice or when the chunk it ends up with is not free, are not modelled; without them the code goes on as here.
- PmemPool.StrandedNeverReused: the chunk list is changed by one call at a time, under the allocator's lock, and the device is set up under the area's lock; all other steps of different calls interleave.
- AllocPmemBuffer: clearing the new buffer with zeros is not modelled. The safety theorems are about sizes above 0, since a request for 0 bytes is handed out without a chunk.
- FreePmemBuffer: a client frees only a buffer it holds; the error of a failed unmapping is lost, as in the source.
- ChunkList.Chunk: the size field of a chunk has 28 bits in the source; a 32-bit heap has at most 2^27 units, so it is a natural number here.
- Allocations of size 0 return offset 0 without making a chunk; freeing that offset is a request like any other in `HeapSpec.ReachableIsWellFormed`.
- The second copy of the allocator and of its list in msm7k/libgralloc is the same code and is not modelled again; PmemKernelAllocator is not part of this model.
- LockWord: whether a flush that failed left anything unwritten is not known, so the write counts as not flushed. Threads unlock only what they locked, and fewer than 0x3FFFFFFF hold the lock; a thread whose mapping failed still counts as a holder. Registering and unregistering handles is not modelled.
- The pipelines: shutting the preview down, taking a picture, removing an overlay, failures of DevDequeue and DevQueue, and the counter nCameraBuffersQueued.
- The video buffers that the encode thread copies into, with releaseRecordingFrame: a scan for a free flag, apart from the pipeline's counting.
- XdrCodec.RoundTrip: XDR_FREE and decoding into memory the caller supplied are not modelled; mem_alloc succeeds below 2^31 - 4096 bytes and fails from there on, no object in memory is larger, and the size of an array in bytes does not wrap.
- XdrProcs.XdrString: the bytes decoded are those of the message; a zero byte among them, which would end the C string early, is kept.
- RpcCall.Call: the router delivers both packets unchanged; when the arguments cannot be decoded the dispatch function answers nothing, since the error replies of the server do not carry the number of the call.
- InputHandoff.EveryInterleaving: sends succeed (`FailedSendOverwrites` says what happens otherwise), waits end only by a signal, replies come only for the outstanding call, every incoming call has a registered service of its own (without one the source never frees the buffer), and a dispatch function returns once it is not in a call. The clients exist throughout: creating and destroying them is not modelled.
- Copybit.StretchCopybit: the source rectangle has no width, or height, where the destination, as the source sees it, has none, since the source would divide by zero; differences of ints that overflow wrap around. Containment is claimed for source rectangles at the origin only, because the source scales the offset too. Image memory, formats of the display processor, alpha and blending flags are not modelled.
- Copybit.ClippingKeepsPicture: that the display processor turns the source clockwise and mirrors its rectangle in place is assumed; the driver is not part of this model.
- CameraSlots.PmemAllocator.DeAllocate: addresses are integers that do not wrap; a buffer size of 0 is excluded, since the source divides by it.
- Device files, ioctl, mmap, sockets, properties and logging; audio, wifi, power, lights, sensors and QualcommCameraHardware.
