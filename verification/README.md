# Verified cores of the computer-systems assignments

The repository is a collection of small C programs. This project models the parts of them that carry
state, concurrency or index arithmetic, one Dafny module per core, and proves what those parts are
for. `dafny verify dfyconfig.toml` checks everything.

| module | core |
|---|---|
| `JobQueue`, `RingBuffer` | the bounded job queue with its push, pop and count locks: a transition system for any number of threads, and the fields updated in place |
| `Alone` | what push and pop add up to for a thread that is left alone |
| `Teardown`, `HistogramTeardown` | which threads can still reach the locks and the buffer once they are destroyed, for the queue under any client and for the histogram program |
| `Histogram`, `Completion` | the threaded bit histogram on top of the queue, the sequential program it must agree with, and that every run can still come to an end |
| `RadixBits`, `RadixTree`, `RadixHeap`, `RadixWrites` | the compressed radix tree: its bit masks, trees as values, the nodes changed in place, and what short writes make of the output |
| `Allocator` | the size-class free-list allocator with in-band headers |
| `Sha256Spec`, `Sha256`, `Sha256Tables`, `Sha256Bits`, `Sha256Vector` | FIPS 180-4 SHA-256, the streaming context that computes it, where its constants come from, its functions bit by bit, and a known digest |
| `Eytzinger` | the index in Eytzinger layout against the linear scan |
| `KdTree` | the k-d tree, its search as written, and the search with the query's own side first |
| `Memory`, `Predictor`, `Words`, `Isa`, `Simulator`, `Instructions` | the lazily paged memory, the branch predictors, 32-bit arithmetic, the instruction formats, the instruction loop, and what each instruction means |
| `BlockTransfer` | a file sent in hashed blocks over short reads and writes |
| `Arith`, `Bits` | facts about remainders and binary digits |

The main results:

- **Queue.** In every state of every interleaving the popped jobs are a prefix of the pushed ones, and
  front, rear and count are what those two sequences say, corrected for a push and a pop that are
  half-way. A slot is never written while it is read. When the thread that pushes also destroys, every
  job has been delivered once the buffer is freed and nothing touches the ring again.
- **Teardown.** For any client: after the freeing no continuation touches the ring if and only if the
  count is zero and nobody is about to store or count a job, and a lock is still operated without a new
  call if and only if some thread is inside a call. The histogram program destroys before it joins; in it
  no lock is operated after destroy if and only if every worker has already been told that the queue is
  closed, and there is a run in which one has not.
- **Histogram.** Every step of every thread keeps a ledger per bin, so that in every run in which all
  workers have exited the global histogram is the sequential one, and every run can be continued to such a
  one. The bins, weighted by powers of two, are the sum of all bytes of the files.
- **Radix tree.** The in-place program, for every input, hands to the write call what a sorted list would
  deliver. A chunk reaches the file as it is if and only if one call accepts it all or its numbers are all
  the same, since `main` restarts a short write at the beginning of its buffer.
- **Allocator.** Over every sequence of calls and payload writes, live and free blocks tile the carved
  heap, every address has one owner, and free lists hold each block of their class once. A block is given
  exactly for sizes 1 to 4084.
- **SHA-256.** Every way of cutting a message into updates, with either copying variant, gives the
  digest of FIPS 180-4, and both variants leave the same context. The constants are the fractions of the roots
  of the first primes, and the digest of "abc" is the known one.
- **Indexes.** The Eytzinger lookup finds a record exactly when the scan does. The k-d search is exact
  with the own side first, and is not exact as written: it fails for some query as soon as two records
  have different longitudes. Two conditions on coordinates alone bracket when it is exact; they leave a
  named case open, which does not occur with up to three records, where they are one if-and-only-if.
- **Simulator.** Every instruction, encoded in memory, does what it means over signed and unsigned numbers.
  Every program runs the same on the pages as on a flat byte memory, every predictor table
  stays within an error budget, and larger tables predict the same when branches do not collide.
- **Block transfer.** The receiver rebuilds the file exactly when the file fits the buffer it allocates,
  under every schedule of short and interrupted calls; which lengths fit is proved.

Where the code and its comments differ the code is followed:

- `job_queue.h` says that pop returns -1 once destroy has been called; the code goes on delivering until
  the queue is empty.
- `job_queue.c` says that the locks are destroyed when nobody uses them any more; destroy only waits for
  the count to be zero, and `LocksDestroyedWhileHeld` is a run in which a lock is still held.
- `lookup_tree` searches the side away from the query first and prunes the query's own side.
- `peer.c` counts blocks by 8196 bytes and sizes the receive buffer by 8116 per block, and its reply for
  an empty file carries zero hashes that the receiver compares with a real hash.
- In `simulate.c` the casts of `mulhsu` and `mulhu` extend the sign, so all three high multiplications
  give the upper half of the signed product, which is not what RISC-V asks of these two; they are modelled so.

## Model

| member | source | states |
|---|---|---|
| `JobQueue.StoreOk` | Opgave3/src/job_queue.c:62-62 | with room and a settled rear, storing a job keeps the ring relation and leaves one uncounted job with rear one behind; no waiting job is overwritten |
| `JobQueue.AdvanceRearOk` | Opgave3/src/job_queue.c:63-63 | the wrapped increment makes rear the slot after the last stored job |
| `JobQueue.BumpOk` | Opgave3/src/job_queue.c:66-66 | counting the stored job settles the push side and keeps count within capacity |
| `JobQueue.LoadOk` | Opgave3/src/job_queue.c:103-103 | with a job counted, the slot at front holds the oldest job not yet popped |
| `JobQueue.AdvanceFrontOk` | Opgave3/src/job_queue.c:104-104 | the wrapped increment makes front the slot after the last loaded job |
| `JobQueue.DropOk` | Opgave3/src/job_queue.c:107-107 | uncounting the loaded job settles the pop side and keeps count at zero or more |
| `JobQueue.PushWaitKeeps` | Opgave3/src/job_queue.c:42-60 | every step of the push wait loop keeps the queue and thread invariants and grants the other threads what they rely on |
| `JobQueue.PushStoreKeeps` | Opgave3/src/job_queue.c:62-71 | the same for the steps that store, advance, count and unlock |
| `JobQueue.PopWaitKeeps` | Opgave3/src/job_queue.c:83-100 | the same for the pop wait loop |
| `JobQueue.PopLoadKeeps` | Opgave3/src/job_queue.c:103-113 | the same for the steps that load, advance, uncount and unlock |
| `JobQueue.DestroyKeeps` | Opgave3/src/job_queue.c:119-142 | the same for destroy and its drain loop |
| `JobQueue.OtherThreadKept` | Opgave3/src/job_queue.c:42-113 | what a step of one thread grants is enough to keep every other thread's invariant |
| `JobQueue.StepKeepsInv` | Opgave3/src/job_queue.c:42-142 | every step of any thread keeps the invariant of the whole system |
| `JobQueue.InitInv` | Opgave3/src/job_queue.c:13-29 | the state after init, with any number of threads, satisfies the invariant |
| `JobQueue.RunKeepsInv` | Opgave3/src/job_queue.c:13-142 | every state of every run satisfies the invariant |
| `JobQueue.FifoUnderEveryInterleaving` | Opgave3/src/job_queue.c:42-113 | in every state of every run popped is a prefix of pushed, 0 <= count <= capacity, and count, rear and front are given by the two sequences corrected for the push and pop in flight |
| `JobQueue.StoreAndLoadAreApart` | Opgave3/src/job_queue.c:47-68 | while a thread writes a slot no other is past its wait loop in push, and a thread that reads a slot reads a different one |
| `JobQueue.ObservationsHold` | Opgave3/src/job_queue.c:47-68 | in every state of every run, a pusher that saw "not full" and a popper that saw "not empty" are still right until they change the count themselves |
| `JobQueue.ObservationsSurvive` | Opgave3/src/job_queue.c:47-57 | while a thread holds the push lock others only lower the count, while it holds the pop lock others only raise it, so "not full" and "not empty" stay true |
| `JobQueue.EmptyCountMeansDelivered` | Opgave3/src/job_queue.c:126-133 | with count zero, all pushed jobs have been popped if and only if no thread is between storing and counting a job |
| `JobQueue.StepTraced` | Opgave3/src/job_queue.c:42-113 | the histories grow by exactly the job stored at line 62 or loaded at line 103, and by no other step |
| `JobQueue.DrainedIsDelivered` | Opgave3/src/job_queue.c:119-133 | with one thread that pushes and destroys, a drained queue has delivered every job and no thread is at a line that touches the ring |
| `JobQueue.OwnerStepKeepsInv` | Opgave3/src/job_queue.c:119-142 | every step keeps that, and after draining leaves the ring unchanged and gives no thread a new job |
| `JobQueue.NothingHappensAfterDestroy` | Opgave3/src/job_queue.c:119-142 | from the freeing on, in every run, all jobs are delivered, the ring never changes, no thread reaches a line that touches it, and a pop that succeeds had taken its job before |
| `JobQueue.ForeignDestroyFreesUnderPush` | Opgave3/src/job_queue.c:119-142 | a run in which another thread than the pusher destroys, and the buffer is freed while a thread is about to write to it; `Teardown.BufferSafeIff` says exactly when this can happen |
| `JobQueue.LocksDestroyedWhileHeld` | Opgave3/src/job_queue.c:135-140 | a run in which the pusher destroys, and the locks go while another thread holds one; `Teardown.LocksFreeIff` and `Teardown.LockOperatedIff` say exactly when |
| `Teardown.LocksFreeIff` | Opgave3/src/job_queue.c:42-142 | in every state of every run, the freeing included, the three locks are free if and only if no thread is at a line that holds one |
| `Teardown.LockOperatedIff` | Opgave3/src/job_queue.c:135-139 | at any moment of any run, some continuation without a new call locks, unlocks, waits with or destroys a lock if and only if some thread is inside push, pop or destroy |
| `Teardown.StepKeepsMarked` | Opgave3/src/job_queue.c:119-142 | destroyed is set before the freeing, and neither is ever taken back |
| `Teardown.QuietTeardown` | Opgave3/src/job_queue.c:119-142 | if every other thread is outside when destroy is called and makes no call before it returns, all locks are free on return and no continuation without a new call operates one |
| `Teardown.SettledStays` | Opgave3/src/job_queue.c:42-142 | destroyed, count zero and nobody about to store or count: every step of every thread, new calls included, keeps that and leaves the ring unchanged |
| `Teardown.PopsJob` | Opgave3/src/job_queue.c:83-113 | while a job is counted, some continuation brings a thread to a line that touches the ring, whoever holds the locks |
| `Teardown.BufferSafeIff` | Opgave3/src/job_queue.c:119-142 | after the freeing, under any client, no continuation comes to a line that touches the ring if and only if the count is zero, no thread is at lines 62 to 66 and none at 51 to 53 has seen room and no warning |
| `HistogramTeardown.TeardownSafeIff` | Opgave3/src/fhistogram-mt.c:127-132 | when destroy has returned in the program, no thread ever operates a lock of the queue again if and only if every worker has already got -1 from pop |
| `HistogramTeardown.WorkReturns` | Opgave3/src/fhistogram-mt.c:42-74 | a worker with a file, with the global lock free or its own, comes back to its loop head and calls pop |
| `HistogramTeardown.TeardownTooEarly` | Opgave3/src/fhistogram-mt.c:125-132 | a run of the program in which the queue is destroyed and a worker then operates one of its locks |
| `RingBuffer.Fields.constructor` | Opgave3/src/job_queue.c:13-29 | an empty queue in which nobody is inside a call |
| `RingBuffer.Fields.StoreSlot` | Opgave3/src/job_queue.c:62-63 | the in-place section has the effect of the two steps of the transition system and keeps their invariant |
| `RingBuffer.Fields.CountUp` | Opgave3/src/job_queue.c:65-68 | the same for counting up |
| `RingBuffer.Fields.LoadSlot` | Opgave3/src/job_queue.c:103-104 | the same for reading a slot; the job read is the one appended to the popped ones |
| `RingBuffer.Fields.CountDown` | Opgave3/src/job_queue.c:106-109 | the same for counting down |
| `RingBuffer.Fields.Push` | Opgave3/src/job_queue.c:42-71 | by a thread that no other disturbs: -1 and no change when destroyed, a wait and no change when full, otherwise the job is appended |
| `RingBuffer.Fields.Pop` | Opgave3/src/job_queue.c:83-113 | by such a thread: the oldest job, also after destroy; when empty -1 if destroyed and a wait if not |
| `Alone.PopAlone` | Opgave3/src/job_queue.c:83-113 | in every state of the transition system, a pop that is left alone with its locks free returns the oldest job; on an empty queue it returns -1 when destroyed and waits when not; nothing else changes |
| `Alone.PushAlone` | Opgave3/src/job_queue.c:42-71 | a push that is left alone returns -1 when destroyed, waits when full, and otherwise appends its job |
| `Alone.OneWayOn` | Opgave3/src/job_queue.c:42-142 | inside a call the next step of a thread is fixed, so such a run is the only one up to the return |
| `Histogram.MergeHistogram` | Opgave3/src/histogram.h:53-58 | every bin of the first is added to the second and cleared |
| `Histogram.UpdateHistogram` | Opgave3/src/histogram.h:61-69 | every bin grows by its bit of the byte |
| `Histogram.ByteIsItsBits` | Opgave3/src/histogram.h:61-69 | the bits counted for a byte, weighted 1, 2, 4 and so on from bin 0, make up the byte |
| `Histogram.FileIsItsBits` | Opgave3/src/fhistogram.c:37-44 | the weighted bins of a file are the sum of its bytes |
| `Histogram.HistogramIsSum` | Opgave3/src/fhistogram.c:75-86 | the weighted bins of a list of files are the sum of the bytes of all that open |
| `Histogram.SequentialFile` | Opgave3/src/fhistogram.c:23-52 | whatever the periodic merges, the global bins grow by the bits of the file |
| `Histogram.Sequential` | Opgave3/src/fhistogram.c:75-86 | the bins are the bit counts of all files that open |
| `Histogram.WorkStepConserves` | Opgave3/src/fhistogram-mt.c:42-73 | a step of a worker between pops, including each load, store and clear of a merge, moves bits to the global bin and loses none |
| `Histogram.MainConserves` | Opgave3/src/fhistogram-mt.c:118-128 | a step of the pushing thread keeps the ledger of each bin |
| `Histogram.PopCallConserves` | Opgave3/src/fhistogram-mt.c:36-40 | a step of a worker inside pop keeps the ledger: what leaves the queue is owed by the worker |
| `Histogram.SysStepKeeps` | Opgave3/src/fhistogram-mt.c:32-132 | every step of every thread keeps the control invariant and every bin's ledger |
| `Histogram.SysRunKeeps` | Opgave3/src/fhistogram-mt.c:32-132 | in every state of every run the ledger is the sequential count of all files |
| `Histogram.AllExitedMeansSettled` | Opgave3/src/fhistogram-mt.c:38-40 | when all workers have exited no file is left, the queue is empty and nobody owes bits |
| `Histogram.ThreadedEqualsSequential` | Opgave3/src/fhistogram-mt.c:32-132 | in every run in which all workers have exited, each global bin is the sequential one, for any number of workers and any interleaving, with merges after every 100000 bytes |
| `Completion.SomeStepCloser` | Opgave3/src/fhistogram-mt.c:32-132 | in every reachable state in which a worker has not exited, some thread can take a step that brings the end closer |
| `Completion.CanComplete` | Opgave3/src/fhistogram-mt.c:32-132 | every run is the beginning of one in which all workers have exited |
| `Completion.SomeRunCompletes` | Opgave3/src/fhistogram-mt.c:85-137 | from every start, for every list of files and every disk, there is a run that ends with all workers gone and the sequential histogram in the bins |
| `Completion.StartExists` | Opgave3/src/fhistogram-mt.c:101-110 | there is such a start for every number of workers and every capacity |
| `RadixBits.TopBitFound` | Opgave5/predictor-benchmarks/radix.c:53-54 | halving the position finds the most significant differing bit; it exists, lies in the range and nothing differs above it |
| `RadixBits.DifferAt` | Opgave5/predictor-benchmarks/radix.c:47-54 | at that bit the numbers differ and above it they agree |
| `RadixTree.ListingSorted` | Opgave5/predictor-benchmarks/radix.c:93-128 | the members of a well-shaped tree, zero side first, are in ascending order |
| `RadixTree.InjectFits` | Opgave5/predictor-benchmarks/radix.c:50-71 | a new interior node at the top differing bit, over the old subtree and a new leaf, is well-shaped |
| `RadixTree.InsertAdds` | Opgave5/predictor-benchmarks/radix.c:31-91 | insertion keeps the shape and adds exactly one copy, also through interiors with a missing child |
| `RadixTree.AddNumberSorts` | Opgave5/predictor-benchmarks/radix.c:31-91 | adding a number to a tree inserts it in order into the sorted list that the tree stands for |
| `RadixTree.InsertSortedOk` | Opgave5/predictor-benchmarks/radix.c:30-31 | the reference insertion keeps a list sorted and adds one copy |
| `RadixTree.SortedUnique` | Opgave5/predictor-benchmarks/radix.c:93-128 | there is one sorted list of a multiset, so ascending output fixes the order |
| `RadixTree.TakeSplits` | Opgave5/predictor-benchmarks/radix.c:94-128 | taking k numbers outputs the first min(k, size) members in order, leaves exactly the rest, and the rest is well-shaped with no empty leaf |
| `RadixTree.TakeTwice` | Opgave5/predictor-benchmarks/radix.c:132-134 | taking a numbers and then b is taking a + b |
| `RadixTree.ChunksSplit` | Opgave5/predictor-benchmarks/radix.c:173-187 | the loop of chunks of at most 1000 outputs the first min(limit, size) members and leaves the rest |
| `RadixTree.ChunksAreOneTake` | Opgave5/predictor-benchmarks/radix.c:173-187 | the chunks output what one take of the whole limit does |
| `RadixTree.RunsAgree` | Opgave5/predictor-benchmarks/radix.c:162-193 | for every sequence of adds and takes the tree outputs what a sorted list does |
| `RadixHeap.TakeLeaf` | Opgave5/predictor-benchmarks/radix.c:99-110 | the two loops copy the even and then the odd number while there is room, and count them off |
| `RadixHeap.TakeInterior` | Opgave5/predictor-benchmarks/radix.c:116-124 | both cells of the node then hold what the take of the value leaves, and the buffer what it outputs |
| `RadixHeap.TakeNumbers2` | Opgave5/predictor-benchmarks/radix.c:94-128 | the nodes below the cell then represent the rest of the take, the buffer holds its output and nothing else in the buffer changes |
| `RadixHeap.StoreLeaf` | Opgave5/predictor-benchmarks/radix.c:36-45 | storing a new leaf in the empty cell at the end of the walk makes the whole tree the one with the number inserted |
| `RadixHeap.InjectNode` | Opgave5/predictor-benchmarks/radix.c:56-71 | after injecting a node, inserting into its empty cell still completes the insertion into the old tree |
| `RadixHeap.WalkDown` | Opgave5/predictor-benchmarks/radix.c:73-82 | descending by the number's bit leaves the insertion into the child as all that is left to do |
| `RadixHeap.CountNumber` | Opgave5/predictor-benchmarks/radix.c:83-89 | counting at the leaf completes the insertion |
| `RadixHeap.TopDiffering` | Opgave5/predictor-benchmarks/radix.c:54-54 | the inner loop ends at the top differing bit |
| `RadixHeap.PlugHolds` | Opgave5/predictor-benchmarks/radix.c:32-35 | a path of nodes with a subtree at its end is one disjoint layout that represents the plugged tree |
| `RadixHeap.Memory.Descend` | Opgave5/predictor-benchmarks/radix.c:34-90 | the loop ends, with the memory holding the tree with the number inserted |
| `RadixHeap.Memory.AddNumber` | Opgave5/predictor-benchmarks/radix.c:31-91 | the nodes represent the old tree with the number inserted, and new nodes are fresh |
| `RadixHeap.Memory.TakeNumbers` | Opgave5/predictor-benchmarks/radix.c:132-134 | the nodes and the buffer hold the two results of the take |
| `RadixHeap.Memory.TakeOut` | Opgave5/predictor-benchmarks/radix.c:173-187 | the loop of chunks does what the chunked take of the value does |
| `RadixHeap.Memory.Process` | Opgave5/predictor-benchmarks/radix.c:162-193 | the whole program on the nodes hands to the write call what the sorted list delivers, for every input |
| `RadixWrites.WriteChunk` | Opgave5/predictor-benchmarks/radix.c:178-183 | the inner loop writes, call by call, the beginning of the buffer again |
| `RadixWrites.ShortWritesExactIff` | Opgave5/predictor-benchmarks/radix.c:178-183 | an ascending chunk reaches the file as it is if and only if at most one call is needed or all its numbers are equal, for every way in which the calls accept it |
| `RadixWrites.ChunksAscend` | Opgave5/predictor-benchmarks/radix.c:176-178 | what is taken out of a tree is ascending and non-negative |
| `Allocator.TilesApart` | Opgave5/predictor-benchmarks/lib.c:181-190 | two carved blocks are the same or do not overlap |
| `Allocator.TilesCover` | Opgave5/predictor-benchmarks/lib.c:181-190 | every carved address lies in a block |
| `Allocator.EveryAddressHasOneOwner` | Opgave5/predictor-benchmarks/lib.c:153-208 | every carved address lies in exactly one block, which is either live or on the free list of its class |
| `Allocator.UnlinkLists` | Opgave5/predictor-benchmarks/lib.c:192-196 | unlinking the first block leaves every free list a chain in memory without repetition |
| `Allocator.UnlinkBook` | Opgave5/predictor-benchmarks/lib.c:192-196 | the unlinked block moves from free to live and the partition holds |
| `Allocator.ReleaseLists` | Opgave5/predictor-benchmarks/lib.c:200-208 | linking a live block in front keeps every free list a chain without repetition |
| `Allocator.ReleaseBook` | Opgave5/predictor-benchmarks/lib.c:200-208 | the released block moves from live to the list of its class and the partition holds |
| `Allocator.CarveBook` | Opgave5/predictor-benchmarks/lib.c:174-191 | a new chunk split into blocks extends the partition to the new end of the heap |
| `Allocator.CarveMem` | Opgave5/predictor-benchmarks/lib.c:184-190 | the links written backwards through the chunk form the free list of the class |
| `Allocator.Heap.constructor` | Opgave5/predictor-benchmarks/lib.c:148-151 | a heap with nothing carved and nothing live |
| `Allocator.Heap.Initialize` | Opgave5/predictor-benchmarks/lib.c:154-157 | the first call clears all headers |
| `Allocator.BlockSizeIsLeast` | Opgave5/predictor-benchmarks/lib.c:159-166 | the size of a block is the least multiple of 8 that holds the payload and the 4 bytes of the header |
| `Allocator.SmallSizes` | Opgave5/predictor-benchmarks/lib.c:167-172 | the class of a size is small exactly up to 4084 bytes |
| `Allocator.Heap.Carve` | Opgave5/predictor-benchmarks/lib.c:174-191 | an empty class gets ten blocks from the free space, twelve for the smallest size; live blocks and what is in them stay |
| `Allocator.Heap.TakeBlock` | Opgave5/predictor-benchmarks/lib.c:173-197 | the block comes from the front of its list if there is one, was not live, and no word of a live block changes |
| `Allocator.Heap.Allocate` | Opgave5/predictor-benchmarks/lib.c:153-198 | a block exactly for sizes 1 to 4084, and null for all others; the block is aligned, was not live and has the requested room, and the payload and header of every live block are unchanged |
| `Allocator.Heap.Release` | Opgave5/predictor-benchmarks/lib.c:200-208 | the block goes to the front of the list of its size class, and one word changes |
| `Allocator.ApartFromHeaders` | Opgave5/predictor-benchmarks/lib.c:137-146 | a word inside a live payload shares no byte with the header or link of any block |
| `Allocator.TilesAligned` | Opgave5/predictor-benchmarks/lib.c:162-166 | in a heap that starts at a word every block does |
| `Allocator.Heap.Write` | Opgave5/predictor-benchmarks/lib.c:137-146 | a client's store of an aligned word inside a live payload keeps the heap's invariant and shares no byte with any block's first word |
| `Allocator.Heap.Run` | Opgave5/predictor-benchmarks/lib.c:153-208 | every sequence of allocations, releases of live blocks and payload writes keeps the invariant, and the handles held are exactly the live blocks |
| `Allocator.Heap.ReleaseThenAllocate` | Opgave5/predictor-benchmarks/lib.c:153-208 | allocating the size just released gives the same block back |
| `Sha256Spec.ZeroCountIsLeast` | Opgave4/src/sha256.c:402-404 | the padding of section 5.1.1 of FIPS 180-4 uses the least number of zero bytes |
| `Sha256Spec.AbsorbConcat` | Opgave4/src/sha256.c:350-358 | absorbing blocks in two parts is absorbing them at once |
| `Sha256Spec.PaddingIsInjective` | Opgave4/src/sha256.c:402-409 | different messages have different padded forms |
| `Sha256Tables.TableOfPrimes` | Opgave4/src/sha256.c:84-101 | the table of primes holds exactly the primes up to 311, ascending |
| `Sha256Tables.ConstantsAreCubeRoots` | Opgave4/src/sha256.c:84-101 | each of the 64 round constants is the first 32 bits of the fractional part of the cube root of its prime |
| `Sha256Tables.InitialWordsAreSquareRoots` | Opgave4/src/sha256.c:189-196 | each initial hash word is the first 32 bits of the fractional part of the square root of its prime |
| `Sha256Bits.ChBit` | Opgave4/src/sha256.c:64-64 | Ch takes the bit of y where x has one and that of z where it has none |
| `Sha256Bits.MajBit` | Opgave4/src/sha256.c:65-65 | Maj has a bit where two at least of the three have it |
| `Sha256Bits.BigSigma0Bit` | Opgave4/src/sha256.c:66-66 | bit j is the parity of bits j + 2, j + 13 and j + 22 modulo 32 |
| `Sha256Bits.BigSigma1Bit` | Opgave4/src/sha256.c:67-67 | bit j is the parity of bits j + 6, j + 11 and j + 25 modulo 32 |
| `Sha256Bits.SmallSigma0Bit` | Opgave4/src/sha256.c:68-68 | bit j is the parity of bits j + 7 and j + 18 modulo 32, and j + 3 where there is one |
| `Sha256Bits.SmallSigma1Bit` | Opgave4/src/sha256.c:69-69 | bit j is the parity of bits j + 17 and j + 19 modulo 32, and j + 10 where there is one |
| `Sha256Vector.DigestOfAbc` | Opgave4/src/sha256.c:32-36 | the digest of "abc" is ba7816bf 8f01cfea and so on, through all 64 rounds |
| `Sha256.MacroChIsCh` | Opgave4/src/sha256.c:64-64 | the macro is Ch of section 4.1.2 of FIPS 180-4 |
| `Sha256.MacroMajIsMaj` | Opgave4/src/sha256.c:65-65 | the macro is Maj of section 4.1.2 |
| `Sha256.ByteSwapReads` | Opgave4/src/sha256.c:112-113 | swapping a word read little-endian gives the big-endian word |
| `Sha256.ByteSwap64Stores` | Opgave4/src/sha256.c:116-121 | the swapped length stored little-endian is the big-endian length |
| `Sha256.DoRound` | Opgave4/src/sha256.c:71-82 | the shifting assignments make one round of section 6.2.2 |
| `Sha256.FillSchedule` | Opgave4/src/sha256.c:221-237 | the two loops compute the message schedule |
| `Sha256.DoRounds` | Opgave4/src/sha256.c:239-265 | sixteen times four rounds are the 64 rounds of section 6.2.2 |
| `Sha256.RepresentationIsUnique` | Opgave4/src/sha256.c:327-389 | the bytes fed in determine hash words, length and live buffer |
| `Sha256.UpdateBoth` | Opgave4/src/sha256.c:327-389 | two contexts of the same message, one updated by each path, end with equal hash words, total length, buffer length and live buffer |
| `Sha256.SwappedWordStores` | Opgave4/src/sha256.c:413-419 | a swapped word stored at once is the four bytes of the word, most significant first |
| `Sha256.PendingGrows` | Opgave4/src/sha256.c:360-366 | bytes that do not fill the buffer only lengthen it and the total |
| `Sha256.BlockFlushes` | Opgave4/src/sha256.c:343-347 | a filled buffer is absorbed as the next block |
| `Sha256.Context.constructor` | Opgave4/src/sha256.c:181-198 | a context that stands for the empty message |
| `Sha256.Context.Guts` | Opgave4/src/sha256.c:211-318 | the hash words become the compression of the old ones with the block |
| `Sha256.Context.Update` | Opgave4/src/sha256.c:367-389 | the plain path appends the data to the message, with the buffer below 64 bytes |
| `Sha256.Context.UpdateFast` | Opgave4/src/sha256.c:327-366 | the fast-copy path appends the data to the message, with the buffer below 64 bytes |
| `Sha256.Context.Final` | Opgave4/src/sha256.c:395-424 | in both builds, with the plain or the fast update inside and the hash written byte by byte or as swapped words, the output is the digest of the message by FIPS 180-4 |
| `Sha256.HashPieces` | Opgave4/src/sha256.c:181-424 | every cut of a message into updates, each by either path, and either final give the digest of the whole |
| `Eytzinger.InOrderVisits` | Opgave2/src/eytzinger/Eytzinger.c:15-21 | the in-order walk from slot k meets every slot below k once and no other |
| `Eytzinger.WholeTree` | Opgave2/src/eytzinger/Eytzinger.c:15-21 | from the root it meets each of 1..n exactly once |
| `Eytzinger.BuildEytzinger` | Opgave2/src/eytzinger/Eytzinger.c:15-21 | the subtree's in-order entries are the next sorted ones, the counter has moved past exactly those, and no other slot is written |
| `Eytzinger.Lookup` | Opgave2/src/eytzinger/Eytzinger.c:31-69 | the loop ends at the first in-order entry with key at least x, and returns its record exactly when the key is x |
| `Eytzinger.MkEytzinger` | Opgave2/src/eytzinger/id_query_eytzinger.c:35-112 | the in-order entries of the array are the sorted (id, record) pairs |
| `Eytzinger.LowerBoundIs` | Opgave2/src/eytzinger/Eytzinger.c:57-58 | a sorted list has one lower bound of x, the one that the lookup's specification computes |
| `Eytzinger.LookupNaive` | Opgave2/src/Binsort/id_query_naive.c:38-45 | the loop returns the first record with the id |
| `Eytzinger.ScanFinds` | Opgave2/src/Binsort/id_query_naive.c:38-45 | the scan finds a record if and only if one has the id |
| `Eytzinger.ScanIsFirst` | Opgave2/src/Binsort/id_query_naive.c:38-45 | it finds the first one |
| `Eytzinger.LowerBoundAgreesWithScan` | Opgave2/src/eytzinger/Eytzinger.c:57-68 | a lower bound with equal key exists exactly when the scan succeeds, and is the same record when ids are unique |
| `Eytzinger.Query` | Opgave2/src/eytzinger/id_query_eytzinger.c:35-112 | building and looking up finds exactly when the scan does, with the id asked for, and the identical record when ids are unique |
| `KdTree.SortRange` | Opgave2/src/kdtree/coord_query_kdtree.c:82-84 | the subarray is sorted along the axis and the rest of the array stays |
| `KdTree.BuildKDTree` | Opgave2/src/kdtree/coord_query_kdtree.c:79-92 | the recursion on subarrays sorted in place builds the tree of the records, whatever the left call has rearranged |
| `KdTree.Mk` | Opgave2/src/kdtree/coord_query_kdtree.c:98-113 | the tree is built from all records |
| `KdTree.BuildMembers` | Opgave2/src/kdtree/coord_query_kdtree.c:79-92 | the tree holds exactly the input records |
| `KdTree.BuildShape` | Opgave2/src/kdtree/coord_query_kdtree.c:79-92 | at every depth the left subtree is not beyond the node along the axis, the right one not before it |
| `KdTree.BuildHeight` | Opgave2/src/kdtree/coord_query_kdtree.c:86-89 | the height is the least possible for the number of records |
| `KdTree.DistIsSymmetric` | Opgave2/src/kdtree/coord_query_kdtree.c:35-39 | the distance treats both axes alike and is the sum of the squares along them |
| `KdTree.OwnSideFirstIsExact` | Opgave2/src/kdtree/coord_query_kdtree.c:126-150 | with the own side first and the same test the search returns a nearest record of the tree |
| `KdTree.QueryOwnSideFirst` | Opgave2/src/kdtree/coord_query_kdtree.c:152-159 | building and searching own side first gives what is promised of the scan: nothing for no records, otherwise a record at minimum distance |
| `KdTree.QueryAsWritten` | Opgave2/src/kdtree/coord_query_kdtree.c:98-159 | building and searching as written gives nothing exactly for no records and otherwise a record of the input; it is nearest if a nearest record is surely reached, only if one is possibly reached, and with up to three records if and only if |
| `KdTree.LookupNaive` | Opgave2/src/naive/coord_query_naive.c:57-85 | the scan returns nothing for no records, and otherwise a record at minimum distance |
| `KdTree.VisitedOrSkipped` | Opgave2/src/kdtree/coord_query_kdtree.c:126-150 | the search as written either looks at a record or passes over it, and no record is in both |
| `KdTree.AsWrittenIsNearestVisited` | Opgave2/src/kdtree/coord_query_kdtree.c:126-150 | it returns a record of the tree no farther than any record it looked at |
| `KdTree.SurelyVisited` | Opgave2/src/kdtree/coord_query_kdtree.c:126-150 | a record is looked at if every line that has it on the query's own side is nearer than all records on the way there and all that are searched before |
| `KdTree.VisitedPossibly` | Opgave2/src/kdtree/coord_query_kdtree.c:126-150 | a record is looked at only if every such line is nearer than all records on the way there |
| `KdTree.SurelyExact` | Opgave2/src/kdtree/coord_query_kdtree.c:138-148 | the answer is nearest if a nearest record meets the first condition |
| `KdTree.ExactOnlyIfPossible` | Opgave2/src/kdtree/coord_query_kdtree.c:138-148 | the answer is nearest only if a nearest record meets the second condition |
| `KdTree.ExactIffReachable` | Opgave2/src/kdtree/coord_query_kdtree.c:138-148 | where no nearest record lies between the conditions, the answer is nearest if and only if one meets them |
| `KdTree.SmallTreesDecided` | Opgave2/src/kdtree/coord_query_kdtree.c:138-148 | in a tree of height two nothing lies between them, for any query |
| `KdTree.ClearIsSure` | Opgave2/src/kdtree/coord_query_kdtree.c:138-148 | for a nearest record the first condition holds if every such line is nearer than the record itself |
| `KdTree.RootPrunes` | Opgave2/src/kdtree/coord_query_kdtree.c:138-148 | for a query level with the root nothing nearer than the root is ever found |
| `KdTree.LevelQueryExactIff` | Opgave2/src/kdtree/coord_query_kdtree.c:138-148 | for such a query the answer is exact if and only if the root itself is nearest |
| `KdTree.AsWrittenFailsSomewhere` | Opgave2/src/kdtree/coord_query_kdtree.c:126-150 | for every tree with two longitudes there is a query whose answer is not nearest |
| `KdTree.TwoLongitudesFail` | Opgave2/src/kdtree/coord_query_kdtree.c:98-159 | for any records with two longitudes, the tree built of them answers some query with a record that is not nearest |
| `KdTree.TwoRecordsAreEnough` | Opgave2/src/kdtree/coord_query_kdtree.c:98-159 | the tree built of (0,0) and (10,0), by any sorting, answers the query (0,0) with the far record |
| `Memory.NewWordBytes` | Opgave5/src/memory.c:35-80 | the masked update of a word replaces the bytes addressed by those of the data and keeps the others, for all widths and offsets |
| `Memory.ReadsJoin` | Opgave5/src/memory.c:82-128 | the masks and shifts of the reads put bytes together in little-endian order |
| `Memory.WordsKept` | Opgave5/src/memory.c:25-44 | creating a zero page changes no word, and writing a word changes that word alone |
| `Memory.WriteRefines` | Opgave5/src/memory.c:35-80 | a write on the pages is the write on the flat memory |
| `Memory.ReadRefines` | Opgave5/src/memory.c:82-128 | a read gives what the flat memory gives and changes no byte |
| `Memory.TracesAgree` | Opgave5/src/memory.c:25-128 | every sequence of accesses of mixed widths, up to the first unaligned one, reads the same values on either memory |
| `Memory.PagedMemory.GetPageAt` | Opgave5/src/memory.c:25-33 | the page of the address exists afterwards, zero if it is new |
| `Memory.PagedMemory.Store` | Opgave5/src/memory.c:35-80 | succeeds exactly when aligned, and then the flat memory has the bytes of the data at the address |
| `Memory.PagedMemory.Load` | Opgave5/src/memory.c:82-128 | succeeds exactly when aligned, gives the bytes at the address and leaves the memory the same |
| `Predictor.EntryBound` | Opgave5/src/simulate.c:179-184 | one saturating counter misses at most its potential plus twice the changes of direction |
| `Predictor.CountersInRange` | Opgave5/src/simulate.c:183-184 | counters stay in 0..3 |
| `Predictor.CounterLearns` | Opgave5/src/simulate.c:181-184 | two outcomes alike decide a counter's prediction, and after three alike one of the other kind does not change it |
| `Predictor.FreshPredictsTaken` | Opgave5/src/simulate.c:97-102 | a new table predicts "taken" and changes its mind after one outcome of the other kind |
| `Predictor.ErrorsByEntry` | Opgave5/src/simulate.c:179-184 | the error count is the sum over entries of what each makes on its own outcomes |
| `Predictor.ErrorBound` | Opgave5/src/simulate.c:97-191 | over any run a fresh table errs at most 1 + 2 x (direction changes) times per touched entry |
| `Predictor.LargerTablesAgree` | Opgave5/src/simulate.c:92-184 | if the run's branches have entries of their own in a table, a multiple of its size predicts the same at every step |
| `Predictor.LargerFreshTablesAgree` | Opgave5/src/simulate.c:92-184 | the same from fresh tables, with equal error counts |
| `Predictor.RunGrows` | Opgave5/src/simulate.c:179-191 | one more branch changes one counter and adds its miss |
| `Predictor.HistoryIsRecent` | Opgave5/src/simulate.c:192-192 | digit k of the history is the outcome k places from the end of the run, for the last 16 |
| `Bits.XorDigit` | Opgave5/src/simulate.c:186-186 | the exclusive or flips exactly the digits that the second number has |
| `Predictor.Table.Observe` | Opgave5/src/simulate.c:180-184 | the prediction is that of the counter the run so far has left, and the counter and error count follow the run |
| `Predictor.RunTables` | Opgave5/src/simulate.c:171-193 | the loop's bimodal and gshare counters are the errors of the run and within their budget |
| `Isa.DecodeR` | Opgave5/src/simulate.c:18-23 | every field of an R-format word is recovered |
| `Isa.DecodeI` | Opgave5/src/simulate.c:27-29 | every 12-bit signed immediate and every field of the I format is recovered |
| `Isa.DecodeS` | Opgave5/src/simulate.c:31-34 | the same for the S format |
| `Isa.DecodeB` | Opgave5/src/simulate.c:36-44 | every even 13-bit signed immediate and every field of the B format is recovered |
| `Isa.DecodeU` | Opgave5/src/simulate.c:46-48 | the same for the 20 upper bits of the U format |
| `Isa.DecodeJ` | Opgave5/src/simulate.c:50-58 | every even 21-bit signed immediate of the J format is recovered |
| `Words.SubMeaning` | Opgave5/src/simulate.c:246-246 | the difference is that of the signed values, wrapped around |
| `Words.AddMeaning` | Opgave5/src/simulate.c:248-248 | the sum is that of the signed values, wrapped around |
| `Words.MulMeaning` | Opgave5/src/simulate.c:247-247 | the product is that of the signed values, wrapped around |
| `Words.MulHighMeaning` | Opgave5/src/simulate.c:251-259 | the upper half is the signed product divided by 2^32, rounded down, for all three high multiplications |
| `Words.MulhuRightIff` | Opgave5/src/simulate.c:258-259 | mulhu is what RISC-V asks for if and only if both words are below 2^31, one is zero, or both are 2^31 |
| `Words.MulhsuRightIff` | Opgave5/src/simulate.c:254-255 | mulhsu is what RISC-V asks for if and only if the second word is below 2^31 or the first is zero |
| `Words.DivMeaning` | Opgave5/src/simulate.c:262-273 | quotient and remainder are those of the division of the signed values that rounds towards zero |
| `Words.TruncatesOnce` | Opgave5/src/simulate.c:262-273 | there is one such division |
| `Words.LessMeaning` | Opgave5/src/simulate.c:226-226 | the signed comparison compares the signed values |
| `Words.ShiftLeftMeaning` | Opgave5/src/simulate.c:252-252 | a shift to the left multiplies the signed value by a power of two and wraps around |
| `Words.ShiftRightMeaning` | Opgave5/src/simulate.c:267-267 | an arithmetic shift to the right divides the signed value by a power of two and rounds down |
| `Instructions.RegisterMeans` | Opgave5/src/simulate.c:244-279 | each of the 18 R-type instructions, from its encoding, gives its value over signed or unsigned numbers, or none for a division by zero |
| `Instructions.ImmediateMeans` | Opgave5/src/simulate.c:223-230 | the same for the I-type instructions |
| `Instructions.ShiftMeans` | Opgave5/src/simulate.c:232-240 | the same for shifts by a constant |
| `Instructions.BranchMeans` | Opgave5/src/simulate.c:157-168 | a branch is taken exactly when its comparison holds |
| `Instructions.EncodedExecutes` | Opgave5/src/simulate.c:108-288 | executing the encoding of any instruction sets its register and the program counter as the instruction says, asks of memory what it says, and changes nothing else |
| `Instructions.LoadMeans` | Opgave5/src/simulate.c:203-211 | a load gives the number in the bytes at the address, lowest first, as two's complement where the instruction is signed |
| `Instructions.StoreMeans` | Opgave5/src/simulate.c:214-220 | a store puts the bytes of the register at the address and leaves all others |
| `Instructions.StepMeans` | Opgave5/src/simulate.c:108-288 | a round of the loop with an instruction in memory at the program counter does what the instruction means to the whole machine |
| `Instructions.PredictorSees` | Opgave5/src/simulate.c:136-171 | the predictors are shown branches with their outcome and jumps as taken, and nothing else |
| `Instructions.UnknownPassedOver` | Opgave5/src/simulate.c:127-288 | unknown opcodes, and loads, stores and branches with an unknown number, only move on |
| `Instructions.UnknownVariant` | Opgave5/src/simulate.c:244-279 | an R-type word with another number in its highest field is taken for the operation with zero there |
| `Instructions.NoFetch` | Opgave5/src/simulate.c:109-109 | a program counter that is not aligned stops the machine |
| `Simulator.StepsAgree` | Opgave5/src/simulate.c:108-289 | one round of the loop does the same on the pages as on the flat memory |
| `Simulator.RunsAgree` | Opgave5/src/simulate.c:108-289 | every run visits the same program counters and registers and stops alike on either memory |
| `Simulator.ZeroStaysZero` | Opgave5/src/simulate.c:286-288 | register 0 is zero at every loop head |
| `Simulator.Simulate` | Opgave5/src/simulate.c:83-289 | the loop reaches the machine that the steps define, and its error counters are those of the branches it executed, within their budget |
| `BlockTransfer.SinglePrecisionBlocks` | Opgave4/src/peer.c:895-895 | below 2^24 bytes the quotient rounded to single precision has the exact ceiling |
| `BlockTransfer.HeaderRoundTrip` | Opgave4/src/peer.c:871-891 | the receiver decodes every field that the sender put in the header |
| `BlockTransfer.HeaderLayout` | Opgave4/src/peer.c:871-891 | byte by byte: length, status, block and count with the most significant byte first, then the hash of the block and the hash of the file |
| `BlockTransfer.HeaderArrives` | Opgave4/src/peer.c:567-578 | at the start of block i the receiver reads the header of block i, whatever the previous header held |
| `BlockTransfer.BlockArrives` | Opgave4/src/peer.c:576-613 | block i passes the status, number and hash checks and extends the file by its bytes, or overruns the buffer |
| `BlockTransfer.RestArrives` | Opgave4/src/peer.c:567-614 | from any block on, the loop rebuilds the rest of the file, or overruns at the last block |
| `BlockTransfer.TransferIsExact` | Opgave4/src/peer.c:503-644 | for every payload below 2^32 bytes, status and content of unwritten memory: the file, if it fits the buffer; overrun, if not; the status, if it is an error; and for no data a hash mismatch unless the empty hash is zero |
| `BlockTransfer.TransferInNumbers` | Opgave4/src/peer.c:503-644 | status 1 with 1 to 8116 bytes comes through, with more than 835992 bytes it overruns, and any other status is refused |
| `BlockTransfer.FitsExactlyWhen` | Opgave4/src/peer.c:534-535 | the condition on the length under which a file fits, and that no file of more than 102 messages does |
| `BlockTransfer.OnlyTheAnnouncedFile` | Opgave4/src/peer.c:616-628 | whatever follows the first header and wherever the stream ends, a saved file has the announced hash, so without collisions it is the file |
| `BlockTransfer.Connection.ReadN` | Opgave4/src/compsys_helpers.c:40-59 | under every schedule of short, interrupted and failing reads: failure, or the bytes asked for as far as the stream has them, in place |
| `BlockTransfer.Connection.WriteN` | Opgave4/src/compsys_helpers.c:64-81 | under every schedule: all bytes in order, or on failure a proper prefix |
| `BlockTransfer.Respond` | Opgave4/src/peer.c:894-932 | the loop sends exactly the messages of the blocks in order, or on failure a proper prefix of them |
| `BlockTransfer.ReadBlockInto` | Opgave4/src/peer.c:576-613 | the in-place block read does what the block step of the specification does |
| `BlockTransfer.ReceiveFile` | Opgave4/src/peer.c:503-644 | the in-place receiver returns what the specification says of the bytes that arrive, or that a read failed |
| `BlockTransfer.Exchange` | Opgave4/src/peer.c:503-644 | sender and receiver together, under any two schedules without a failing call, give the exact outcome above |

## Left out

- Progress of the queue and of the histogram: the wait and the signal use another mutex than the one that guards count, so a signal can be missed; waits are modelled as steps that may end at any time. That a run can be completed is proved, that a scheduler completes it is not.
- A queue capacity of zero or less, with which no push could ever succeed.
- A failing `malloc`, anywhere, and the release of memory: freed tree nodes, index arrays, pages and file buffers are dropped from the model.
- RadixHeap.Memory.AddNumber: the leaf counts and the child pointers, which share a union in the source, are separate fields, and nodes come from the model's own heap, not from `Allocator`.
- RadixHeap.Memory.Process: the output is what is handed to the write call; `RadixWrites` says what reaches the file. A call that accepts nothing or fails, and reading input in hundreds, are not modelled. A limit of -2^31 is left out because its negation overflows.
- Allocator.Heap.Allocate: sizes so near 2^31 that adding the header overflows, and the end of the address space, are not modelled; pointers are one 4-byte word and the heap starts at a word.
- Allocator.Heap.Write: stores whole aligned words; stores of single bytes are not told apart.
- Counters that are C ints (histogram bins, leaf counts, queue and error counts) are mathematical integers, and so are the indices 2k and 2k + 1 of the Eytzinger layout.
- Eytzinger.MkEytzinger: `qsort` is a parameter with the contract of a sorted permutation; the same holds for `KdTree.SortRange`.
- KdTree.OwnSideFirstIsExact: coordinates are real numbers, without rounding or NaN.
- KdTree.ExactIffReachable: a nearest record is left undecided when a line that has it on the query's own side is nearer than all records on the way there, but not nearer than some record on the other side of an earlier line; whether that record is looked at depends on the tests inside its own subtree.
- Sha256.Context.Guts: the unrolling by 4, on a little-endian machine; big-endian and run-time endian builds, other unrollings and the clearing of the stack are left out.
- Simulator.Simulate: one table size at a time; division and remainder by zero stop the model, signed division of -2^31 by -1 wraps, input and output are sequences of characters, and the log, the instruction and branch counts and the two static predictors are left out.
- BlockTransfer.TransferIsExact: the number of blocks is the exact ceiling; from 2^24 bytes on, where no file fits the buffer anyway, single precision may give another one. The hash is any function to 32 bytes.
- BlockTransfer.ReceiveFile: a block that announces more bytes than the buffer has room for is an outcome of its own, reached before its payload is read; writing the file to disk is left out.
- BlockTransfer.Respond: payloads and status words are below 2^32.
- Peer registration, INFORM messages and the peer list, sockets, file walking, ELF reading, record parsing, argument parsing and terminal output.
- The disassembler, the binary-search and indexed id queries, fauxgrep and the other small programs, which would add easy members only.
