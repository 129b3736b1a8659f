# Verified models of the lab programs

A Dafny model of the algorithmic parts of this repository's C programs, with proofs of what they
keep, compute and preserve.

- **Allocators** (`HeapModel`, `FreeLists`, `ListOrder`, `Memory`, `Payload`, `Layouts`, `Allocator`,
  `TagBits`, `TraceRuns`, `Totals`, `Driver`, `Replays`). One class, `Allocator.Heap`, holds the arena of
  bytes below `memlib.c` and runs the code of `mm.c`, `mm_right.c`, `mm_list.c` and `mm_blk.c`, which
  differ in the free index: segregated lists with first fit or best fit, one explicit list, or none. Ghost
  fields hold the layout (a map from payload address to size and status), the lists, the blocks that are
  between lists and the blocks whose tags are about to be written. `Driver` replays any trace as
  `eval_mm_valid` does, `Replays` measures it and runs trace after trace; `TraceRuns` and `Totals` say what
  the runs, verdicts and totals are.
- **Cache simulator** (`Lru`, `CacheRow`, `CacheTrace`, `ReuseDistance`, `CacheSim`). The stamps of `csim.c`
  refine one bounded recency list for each set; the laws about traces are proved of the lists, down to
  which accesses to which blocks are hits.
- **Proxy** (`ObjectCache`, `ReaderWriter`, `Coherence`, `RecentUse`, `LateSend`, `CacheCalls`, `UrlLengths`,
  `BoundedQueue`, `Descriptors`, `RioPackage`, `Relay`). `cache.c` and the queue are step relations over
  any number of threads: a critical section is a step, so is each access outside one, waiters are
  notified or not, and spurious wakeups are allowed. `read()` and `write()` follow a script of
  interrupts, failures and piece sizes.
- **Transposes** (`Transpose`), **command lines** (`CommandLine`), **number printing** (`SioLtoa`), **bit puzzles**
  (`Bitwise`, `Bits`, `Floats`) and **K-best sampling** (`KBest`).

Where a promise fails on some inputs, the code is modelled as it is, an input is exhibited, and the
exact condition is proved: request sizes that wrap around or whose class is searched for without
end (`RequestExact`, `ClassSearchExact`), a second mm_init of mm_list.c, which may overwrite the footer
of its first block (`Init`, `SpoilsNextTrace`), a break whose pointer sum wraps around (`RefusedExact`),
a driver that reports lost data of blocks it marks with 128 or more (`LostDataExactly`), an mm_realloc
that crashes (`TryRealloc`), urls too long for a slot of the cache (`NeverStuck`, `InBoundsIffUrlsFit`),
evicting the slot that was sent from longest ago (`EvictsLeastRecent`, `EvictedWasSentLast`), a queue
without room (`NeverStuckIffRoom`), a command line without a first character (`Parse`), `LONG_MIN`
(`TextReadsBack`), and two corners of the float puzzles (`Scale2Doubles`, `TruncBitsTruncates`). The
comment of `floatFloat2Int` promises 0x80000000 for anything out of range and that of `floatScale2`
promises 2*f; the models follow the code.

`dafny verify dfyconfig.toml` checks the project.

## Model

| member | source | states |
|---|---|---|
| `HeapModel.SplitTiled` | malloclab-handout/mm.c:355-374 | cutting a free block in two leaves blocks that tile the heap |
| `HeapModel.MergeTiled` | malloclab-handout/mm.c:271-300 | joining a block with its successor leaves blocks that tile the heap |
| `HeapModel.GrowTiled` | malloclab-handout/mm.c:254-269 | a new last block, where the epilogue was, extends the tiling |
| `HeapModel.JoinCoalesces` | malloclab-handout/mm.c:271-300 | in a heap whose only neighbouring free blocks are those around one block, the four cases of coalesce leave no two neighbouring free blocks and change no allocated block |
| `HeapModel.SplitCoalesced` | malloclab-handout/mm.c:355-374 | allocating the front of a split block leaves no two neighbouring free blocks |
| `Layouts.LayoutDetermined` | malloclab-handout/mm.c:271-300 | two layouts without neighbouring free blocks and with the same allocated blocks are the same layout, so a layout has no history |
| `Layouts.AllFreeIsOneBlock` | malloclab-handout/mm.c:223-230 | with nothing allocated the whole heap is one free block |
| `Layouts.TilesExactly` | malloclab-handout/mm.c:93-108 | every address of the heap lies in exactly one block |
| `FreeLists.PushLinked` | malloclab-handout/mm.c:398-413 | the four words written at the head of a doubly linked list give the list with the block in front, and nothing else changes |
| `FreeLists.UnlinkLinked` | malloclab-handout/mm.c:377-395 | the words written by a removal give the doubly linked list without that element, wherever it stands |
| `FreeLists.RemoveStep` | malloclab-handout/mm.c:377-395 | a removal keeps the whole heap invariant, the block now being in no list |
| `FreeLists.InsertStep` | malloclab-handout/mm.c:398-413 | an insertion into the class of the block keeps the whole heap invariant |
| `FreeLists.MergeStep` | malloclab-handout/mm.c:271-300 | joining two unlisted free blocks keeps the invariant, the joined tags being the ones to write |
| `FreeLists.SplitStep` | malloclab-handout/mm.c:355-374 | splitting an unlisted block keeps the invariant, two tags of each part being the ones to write |
| `FreeLists.GrowStep` | malloclab-handout/mm.c:254-269 | the header, footer and epilogue of a new last block re-establish the invariant on the larger heap |
| `FreeLists.BlankHeap` | malloclab-handout/mm.c:145-189 | the words mm_init writes make a heap without blocks, with empty lists |
| `FreeLists.ClassOrder` | malloclab-handout/mm.c:302-318 | a lower list index means smaller blocks: the classes are ordered, disjoint size ranges |
| `FreeLists.ClassIs` | malloclab-handout/mm_right.c:264-269 | the class c of a size: up to 16 * 2^c in mm.c and 4 * 2^c in mm_right.c unless it is the last, and more than half of that unless it is the first |
| `FreeLists.InOneClass` | malloclab-handout/mm.c:302-318 | a size is in one of these ranges only |
| `FreeLists.ClassOccurs` | malloclab-handout/mm.c:302-318 | each of the classes has sizes |
| `ListOrder.RemovedIs` | malloclab-handout/mm.c:377-395 | taking element k out of its list takes that block out of the lists and keeps the order of the others |
| `ListOrder.JoinersAre` | malloclab-handout/mm.c:271-300 | the blocks that coalesce takes out of the lists are all that lie in the joined block |
| `FreeLists.NoneAtAll` | malloclab-handout/mm_right.c:274-310 | when no list holds a fitting block, no free block of the heap fits |
| `FreeLists.BestOfClassIsBest` | malloclab-handout/mm_right.c:274-310 | the smallest fitting block of the first class that has one is a smallest fitting block of the whole heap |
| `FreeLists.StepOver` | malloclab-handout/mm_blk.c:159-171 | the walk from header to header misses no block |
| `Memory.StoreIsPut` | malloclab-handout/mm.c:74-76 | storing four bytes little-endian is one word store, and touches no word further away |
| `Memory.WordMakesBytes` | malloclab-handout/mm.c:70-76 | a word that keeps its value keeps its four bytes |
| `Memory.MemLib.Sbrk` | malloclab-handout/memlib.c:55-67 | the break grows by the increment and its old value is returned, exactly if it stays within the arena; otherwise it stays, and -1 is returned |
| `Memory.RefusedExact` | malloclab-handout/memlib.c:55-67 | the test on 32-bit pointers refuses exactly the increments that leave the arena if and only if the sum does not wrap around |
| `Memory.WrappedBreakGranted` | malloclab-handout/memlib.c:55-67 | a start address and an increment of twelve times the arena that the test does not refuse |
| `Memory.SplitWord` | malloclab-handout/mm.c:74-76 | the four bytes of a word, lowest first, assemble to the word |
| `Allocator.RequestFits` | malloclab-handout/mm.c:195-218 | up to the largest request, the block size is the least multiple of 8 with room for the payload and both tags |
| `Allocator.RequestExact` | malloclab-handout/mm.c:195-218 | the block size has that room, and in mm_right.c the search for its class ends, if and only if the request is at most 0xFFFFFFF0 (0x7FFFFFF8 in mm_right.c, 0x7FFFFFF0 in mm_list.c and mm_blk.c) |
| `Allocator.ClassSearchExact` | malloclab-handout/mm_right.c:264-269 | some bound of the loop, shifted in 32 bits, reaches the size if and only if the size is at most 2^31 |
| `Allocator.ClassSearchHangs` | malloclab-handout/mm_right.c:147-159 | the smallest request whose block size the loop never reaches |
| `Allocator.RequestWraps` | malloclab-handout/mm.c:195-218 | a request for which the 32-bit arithmetic wraps to a block of 0 bytes |
| `TagBits.TagsAreBits` | malloclab-handout/mm.c:78-96 | the remainders the models use for tags are the masks and the or of the macros |
| `TagBits.AlignIsMask` | malloclab-handout/mm.c:45-45 | rounding up to a multiple of 8, in 32 bits, is the mask of ALIGN |
| `Allocator.PrevTag` | malloclab-handout/mm.c:102-104 | the footer in front of a block tells whether, where and how large its free predecessor is |
| `Allocator.Heap.GetListIdx` | malloclab-handout/mm.c:302-318 | the loop finds the list index of a size (in mm_right.c, of a size up to 2^31), whose range the size is in |
| `Allocator.Heap.RemoveFreeBlk` | malloclab-handout/mm.c:377-395 | takes a free block out of its list, keeping the order of the others, the heap invariant and all payloads |
| `Allocator.Heap.InsertFreeBlk` | malloclab-handout/mm.c:398-413 | puts a free block in front of the list of its class, keeping the heap invariant and all payloads |
| `Allocator.Heap.Coalesce` | malloclab-handout/mm.c:271-300 | restores the full invariant around a newly freed block; allocated blocks and their contents do not change; the joined block is the first of its list, and those it has taken in are in no list |
| `Allocator.Heap.FirstInClass` | malloclab-handout/mm.c:320-353 | the first fitting block of a list, or none |
| `Allocator.Heap.BestInClass` | malloclab-handout/mm_right.c:274-310 | a smallest fitting block of a list, the first of those, or none |
| `Allocator.Heap.WalkHeaders` | malloclab-handout/mm_blk.c:159-171 | the lowest fitting free block, or NULL exactly if there is none |
| `Allocator.Heap.FindFit` | malloclab-handout/mm_right.c:274-310 | NULL exactly if no free block of the whole heap fits; otherwise the block the policy promises: first of the first class, smallest of the heap and first of those in its list, first of the list, or lowest |
| `Allocator.SearchesAgree` | malloclab-handout/mm_list.c:231-239 | on the same layout the searches of any two of the four allocators give up in the same cases, whatever index they keep |
| `Allocator.Heap.Place` | malloclab-handout/mm.c:355-374 | allocates a fitting free block and cuts it to the size asked for, unless less than 16 bytes would be left; what is left is the first of its list; nothing else changes |
| `Allocator.Heap.ExtendHeap` | malloclab-handout/mm.c:254-269 | grows the heap by the rounded size and coalesces, with the new last block in front of its list, or leaves it untouched when sbrk fails |
| `Allocator.Heap.Malloc` | malloclab-handout/mm.c:195-218 | keeps the invariant and every live byte; returns NULL exactly if nothing fits and either the block or a chunk of 4096 bytes would not fit below the limit; otherwise a block that was unused, aligned and large enough, chosen by the policy, cut as place does, and from new memory only if nothing fits; the break then rises by the block size or a chunk, whichever is more; the new order of the lists is stated |
| `Allocator.NoMemoryExact` | malloclab-handout/mm.c:195-218 | with 32-bit pointers, for an arena at any address, NULL is returned in the same cases if and only if the new break, where one is computed, does not wrap around |
| `Allocator.Heap.Free` | malloclab-handout/mm.c:223-230 | keeps the invariant; the block and no other is gone; every other live byte is kept; the block it becomes part of is the first of its list |
| `Allocator.Heap.Realloc` | malloclab-handout/mm_right.c:188-207 | the new payload starts with the old one, as far as both have room; the other payloads are unchanged; the new block is chosen, cut and paid for as by mm_malloc; on failure nothing has changed |
| `Allocator.Heap.Init` | malloclab-handout/mm.c:145-189 | succeeds exactly if the first chunk fits; the heap is then one free block of 4096 bytes, alone in the list of its class, and in order, if and only if a list head that mm_list.c has kept from an earlier use is not where the footer of that block goes |
| `Allocator.Heap.InitList` | malloclab-handout/mm_list.c:209-228 | the same for the steps of mm_list.c, with any list head left over |
| `Allocator.Heap.HeadListed` | malloclab-handout/mm_list.c:147-156 | the list head of a heap in use is the first element of the list, in the arena |
| `Allocator.Heap.LiveBlocks` | malloclab-handout/mm.c:195-218 | allocated blocks are aligned, inside the heap, and pairwise disjoint |
| `Allocator.Heap.OneBlock` | malloclab-handout/mm.c:223-230 | a heap with nothing allocated is one free block |
| `Allocator.Heap.MallocFree` | malloclab-handout/mm.c:195-230 | freeing what was just allocated restores the very same layout unless the heap had to grow |
| `Driver.AddRange` | malloclab-handout/mdriver.c:383-430 | accepts a payload exactly if it is aligned, inside the heap and not hit by the overlap test |
| `Driver.HitsExactly` | malloclab-handout/mdriver.c:407-416 | the overlap test finds every overlap except those where the new payload sticks out on both sides of the old one |
| `Driver.DoAlloc` | malloclab-handout/mdriver.c:599-625 | a malloc request fails exactly if nothing fits and the heap cannot grow; else it is served, and all known payloads stay intact and disjoint |
| `Driver.TryRealloc` | malloclab-handout/mm.c:235-251 | mm_realloc crashes exactly if it is that of mm.c and its mm_malloc fails |
| `Driver.MarkRead` | malloclab-handout/mdriver.c:651-657 | data filled with a mark from 0 to 255 are read back as the mark, in signed chars, exactly if it is below 128 |
| `Driver.DoRealloc` | malloclab-handout/mdriver.c:627-664 | the exact verdict on a realloc request: no room, or data reported lost exactly if the low byte of the id is 128 or more, or served with the other payloads intact |
| `Driver.DoFree` | malloclab-handout/mdriver.c:666-672 | a free request leaves the other payloads intact |
| `Driver.EvalMmValid` | malloclab-handout/mdriver.c:572-683 | for every trace, allocator and memory size, no payload is misaligned, misplaced or overlapping; the requests are served one by one until one finds no room or is a realloc the driver misreads, and the verdict says which; with room for all that the trace can demand it depends on the trace alone; after a run that ends well the blocks left hold their data, or the heap is one free block |
| `TraceRuns.LostDataExactly` | malloclab-handout/mdriver.c:651-657 | data are reported lost if and only if the run reaches a realloc, with room for it, of a block whose id has a low byte of 128 or more |
| `TraceRuns.ValidMeansReadable` | malloclab-handout/mdriver.c:572-683 | a trace that ends well has no such realloc |
| `TraceRuns.RoomyVerdict` | malloclab-handout/mdriver.c:572-683 | if the arena has room for the sum of what the requests can make the heap grow by, every run ends well or, exactly if some realloc of the trace is of a block whose id has a low byte of 128 or more, with lost data |
| `TraceRuns.MarkOf128` | malloclab-handout/mdriver.c:651-657 | a trace of two requests for which every run ends with lost data, with every allocator |
| `Driver.ReportsHighMark` | malloclab-handout/mdriver.c:572-683 | the driver on that trace |
| `TraceRuns.CrashIn20MB` | malloclab-handout/mm.c:235-251 | a trace of two requests for which every run of mm.c in the arena of config.h crashes |
| `Driver.CrashesWhenFull` | malloclab-handout/mm.c:235-251 | the driver on that trace, in that arena |
| `Totals.TotalIsSum` | malloclab-handout/mdriver.c:713-767 | the running total of the measurement is the sum of the sizes of the blocks handed out, in every run |
| `Totals.SeparateFit` | malloclab-handout/mdriver.c:696-771 | payloads that do not overlap, with their headers and footers, have at most the size of the heap they lie in |
| `Totals.PeakBelowBrk` | malloclab-handout/mdriver.c:696-771 | in every run the peak of the totals stays below the break, that is, the utilisation below 1 |
| `Totals.PeakIsLargest` | malloclab-handout/mdriver.c:723-725 | the peak is the largest of the totals, and one of them |
| `Replays.EvalMmUtil` | malloclab-handout/mdriver.c:696-771 | for every trace without a misread realloc, the requests are served as in a run; if all are, the maximum is the peak of the trace and less than the heap it took |
| `Replays.EvalMmSpeed` | malloclab-handout/mdriver.c:779-816 | the same requests without measurement are a run of the trace too |
| `Replays.ReplayFails` | malloclab-handout/mdriver.c:710-732 | such a replay fails only for a trace whose demand exceeds the arena |
| `Replays.EvalTraces` | malloclab-handout/mdriver.c:296-315 | for any traces, each checked and, if valid, replayed for utilisation and any number of times for speed, on one heap: each verdict is that of a run from a fresh heap, and each measurement the peak of its trace; the loop ends early only if a replay of a demanding trace fails, or if mm_list.c has its list head on the footer of the first block when mm_init is called |
| `TraceRuns.SpoilerEnds` | malloclab-handout/mm_list.c:209-228 | a trace of three requests, all served, for which every run of mm_list.c leaves the one free block there |
| `Driver.SpoilsNextTrace` | malloclab-handout/mm_list.c:209-228 | after that trace, the next mm_init of mm_list.c leaves a heap that is not in order |
| `CacheRow.HitIsAccess` | cachelab-handout/csim.c:96-100 | restamping a hit line moves its tag to the front of the recency list |
| `CacheRow.MissIsAccess` | cachelab-handout/csim.c:102-119 | overwriting the first empty or else the oldest line is a miss of the bounded recency list |
| `CacheRow.FullRow` | cachelab-handout/csim.c:104-117 | the list is full exactly if every line of the set is valid |
| `CacheSim.Simulator.FindVictim` | cachelab-handout/csim.c:104-114 | the line chosen carries a least stamp, and is the first empty one if there is one |
| `CacheSim.Simulator.FindCache` | cachelab-handout/csim.c:84-120 | one access changes lists and counters exactly as the recency-list model does |
| `CacheSim.Simulator.Replay` | cachelab-handout/csim.c:122-139 | the simulator after a trace is the model after the trace |
| `CacheTrace.ModifyIsTwoAccesses` | cachelab-handout/csim.c:134-137 | counting a modify as one access and one more hit is the same as two accesses |
| `CacheTrace.Conservation` | cachelab-handout/csim.c:84-139 | in every state, hits and misses add up to the accesses, and misses minus evictions is the number of valid lines |
| `CacheTrace.CountersBounded` | cachelab-handout/csim.c:84-139 | hits and misses together are at most twice the length of the trace, and evictions at most the misses |
| `CacheTrace.Inclusion` | cachelab-handout/csim.c:84-139 | after every trace, what a cache with fewer lines holds is a prefix of what one with more lines holds in each set, so it never has fewer misses |
| `CacheTrace.HoldsLastDistinct` | cachelab-handout/csim.c:84-139 | each set holds its last E distinct tags, by time of last use |
| `ReuseDistance.TagAndSet` | cachelab-handout/csim.c:84-86 | tag and set index of an address are the block number addr / 2^b, split at s bits |
| `ReuseDistance.SameBlock` | cachelab-handout/csim.c:84-86 | two addresses have the same tag and set if and only if they are in the same block |
| `ReuseDistance.HeldExactly` | cachelab-handout/csim.c:84-120 | after every trace, the block of an address is in the cache if and only if it has been accessed and, since then, fewer than E other blocks of its set have |
| `ReuseDistance.HitExactly` | cachelab-handout/csim.c:84-120 | one more load or store is a hit exactly in that case, and a miss otherwise |
| `Lru.TakeAccess` | cachelab-handout/csim.c:84-120 | cutting a recency list commutes with an access, the step behind inclusion |
| `ReaderWriter.LockedStep` | proxylab-handout/cache.c:15-83 | every step of every thread keeps the counters right, writers alone, and no wakeup lost |
| `ReaderWriter.WriterAlone` | proxylab-handout/cache.c:48-82 | in every run, a writer between its critical sections meets no other writer and no reader past its wait |
| `ReaderWriter.SomeoneAwake` | proxylab-handout/cache.c:15-83 | in every run, while any call of cache_src or cache_add is under way some thread in such a call is awake or notified, although the last reader only signals |
| `ReaderWriter.LastWriterLeaves` | proxylab-handout/cache.c:79-82 | in every state with the invariants of a run, the step with which the last writer leaves notifies all who sleep |
| `Coherence.CoherentStep` | proxylab-handout/cache.c:15-83 | every step keeps slots whole, stamps meaningful, and what was sent among what was stored |
| `Coherence.ScanStep` | proxylab-handout/cache.c:64-70 | the eviction scan has always found the oldest of the slots it has seen |
| `Coherence.StampFresh` | proxylab-handout/cache.c:59-61 | a stamp makes its slot the last used one and leaves the last use of the others alone |
| `Coherence.SendsOnlyStored` | proxylab-handout/cache.c:25-34 | in every run, up to the first url that overruns its slot, cache_src has only sent objects that a completed cache_add stored under the same url |
| `Coherence.SendsWholeResponses` | proxylab-handout/proxy.c:273-285 | in every run, up to the first url that overruns its slot, whatever cache_src has sent under a url is the whole response that some copy loop received for that url |
| `Coherence.RelayOk` | proxylab-handout/proxy.c:275-281 | each round of the copy loop, as a step of a thread, keeps the buffer a prefix of the response as long as it fits |
| `Coherence.StampsDistinct` | proxylab-handout/cache.c:59-77 | in every run, stamps of slots in use are distinct and below the counter |
| `Coherence.EvictedIsOldest` | proxylab-handout/cache.c:63-77 | in every run, a slot in use is overwritten only in a full cache, and every other slot has been stamped since it was |
| `RecentUse.UseIsTouch` | proxylab-handout/cache.c:25-34 | in every run, stamps are given only by calls that have found their url in the slot, or have filled it |
| `RecentUse.PastMeansTouched` | proxylab-handout/cache.c:25-34 | in every run, a call that is about to send from a slot, or to leave after filling it, has stamped that slot itself |
| `RecentUse.EvictsLeastRecent` | proxylab-handout/cache.c:25-77 | in every run, when a slot in use is about to be overwritten, each other slot has been sent from or stored into by a call since whose stamp no call has stamped the first slot, and only calls that had stamped it before have sent from it or stored into it |
| `LateSend.EvictedWasSentLast` | proxylab-handout/cache.c:28-31 | a run in which the slot about to be evicted is the one that was sent from last, by a call that had stamped it before all the others were stamped and sent from |
| `CacheCalls.CallsEnd` | proxylab-handout/cache.c:15-83 | in every run, every step of a call brings it nearer to its end, except one that goes to sleep while someone is in its way |
| `Coherence.MissMeansAbsent` | proxylab-handout/cache.c:25-44 | in every run, when a call of cache_src leaves and returns false, no slot in use has its url |
| `CacheCalls.FoundMeansSent` | proxylab-handout/cache.c:25-44 | in every run, a call of cache_src that returns true has sent the object of a slot in use with its url |
| `CacheCalls.SendsObject` | proxylab-handout/cache.c:25-34 | what is sent is the object of a slot in use with the url of the call |
| `CacheCalls.OnlySends` | proxylab-handout/cache.c:25-34 | no other step sends anything |
| `CacheCalls.RelayEnds` | proxylab-handout/proxy.c:273-285 | in every run, a copy loop that ends calls cache_add with its url and the whole response if that is shorter than MAX_OBJECT_SIZE, and not otherwise |
| `CacheCalls.AddEnds` | proxylab-handout/cache.c:55-82 | in every run, when a call of cache_add ends, a slot in use holds its url and the whole object |
| `Coherence.NeverStuck` | proxylab-handout/cache.c:15-83 | in every run, a thread under way can take its next step, and that step accesses nothing outside its array, if and only if it is not about to copy a url of 1024 or more characters into a slot; the accesses are the slots that both scans read, the slot that is filled or sent, its url, the 102400 bytes copied into, and the pieces of the copy loop |
| `Coherence.OutOfBoundsSticks` | proxylab-handout/cache.c:15-83 | a thread about to leave an array, overrun the url or the buffer of a slot, or read past a buffer cannot take a step |
| `UrlLengths.InBoundsIffUrlsFit` | proxylab-handout/proxy.c:205-288 | all runs for given urls keep all accesses inside their arrays if and only if each of these urls has fewer than 1024 characters |
| `UrlLengths.FittingUrlsInBounds` | proxylab-handout/proxy.c:284-284 | a run whose urls all have fewer than 1024 characters makes no access outside an array |
| `UrlLengths.OverlongUrlReached` | proxylab-handout/cache.c:55-56 | for every longer url there is a run of one request that comes to the copy past the end of the slot |
| `UrlLengths.LongUrlReached` | proxylab-handout/proxy.c:212-213 | a url of 1028 characters, short enough for the request line, for which there is such a run |
| `BoundedQueue.InsertAppends` | proxylab-handout/proxy.c:52-54 | storing at rear appends to the contents, and rear stays (front + size) % cap |
| `BoundedQueue.RemoveTakesOldest` | proxylab-handout/proxy.c:63-65 | the value at front is the oldest, and the rest keeps its order |
| `BoundedQueue.FdQueue.constructor` | proxylab-handout/proxy.c:29-40 | queue_init gives an empty queue, for every capacity from 0 |
| `BoundedQueue.FdQueue.Put` | proxylab-handout/proxy.c:47-57 | the push appends its value |
| `BoundedQueue.FdQueue.Get` | proxylab-handout/proxy.c:58-69 | the pop returns and removes the oldest value |
| `BoundedQueue.FirstInFirstOut` | proxylab-handout/proxy.c:47-69 | in every run of any pushers and poppers, the values popped are a prefix of those pushed and the buffer holds exactly the rest |
| `BoundedQueue.CallEnds` | proxylab-handout/proxy.c:47-70 | a push ends with its next step exactly if there is room, and has then appended its value; a pop exactly if there is something to take, and has then taken the oldest value |
| `BoundedQueue.CanStep` | proxylab-handout/proxy.c:47-70 | in every run, every thread under way can make its next step |
| `BoundedQueue.NeverStuckIffRoom` | proxylab-handout/proxy.c:47-69 | no run has a pusher and a popper both asleep un-notified, if and only if the capacity is not 0 |
| `BoundedQueue.NoRoomSticks` | proxylab-handout/proxy.c:29-69 | a run with capacity 0 in which both wait for good |
| `Transpose.SwapBlock` | cachelab-handout/trans.c:80-86 | the pairwise swaps transpose an 8 by 8 block in place and touch nothing else |
| `Transpose.UnstageBlock` | cachelab-handout/trans.c:114-139 | the second loop moves the staged quarter to its place and fills the rest of the block |
| `Transpose.TransposeByBlocks` | cachelab-handout/trans.c:25-89 | the row copy and in-place swap transpose every matrix whose sides are multiples of 8 |
| `Transpose.TransposeStaged` | cachelab-handout/trans.c:91-142 | the staged branch transposes every matrix whose sides are multiples of 8 |
| `Transpose.TransposeByColumns` | cachelab-handout/trans.c:144-177 | eight columns at a time and the rest transpose every matrix |
| `Transpose.TransposeSubmit` | cachelab-handout/trans.c:24-178 | B becomes the transpose of A for all shapes |
| `Transpose.Trans` | cachelab-handout/trans.c:190-199 | the baseline gives the same |
| `Transpose.IsTranspose` | cachelab-handout/trans.c:221-232 | true exactly if B is the transpose of A |
| `Transpose.TransposeTwice` | cachelab-handout/trans.c:24-199 | transposing twice gives the matrix back, and the fast form equals the baseline |
| `RioPackage.Readn` | proxylab-handout/csapp.c:686-703 | the next min(n, remaining) bytes, however read() cuts them, or -1 on a failure; no byte is lost |
| `RioPackage.Writen` | proxylab-handout/csapp.c:710-726 | all n bytes in order, or -1 after a proper prefix; -1 only if a write failed or accepted nothing |
| `RioPackage.Rio.Read` | proxylab-handout/csapp.c:738-763 | between 1 and n of the pending bytes, 0 exactly at the end of the stream |
| `RioPackage.Rio.Readnb` | proxylab-handout/csapp.c:782-798 | the next min(n, pending) bytes, however read() cuts them |
| `RioPackage.Rio.Readlineb` | proxylab-handout/csapp.c:804-826 | the bytes through the first newline, at most maxlen - 1 of them, with a terminator |
| `RioPackage.LineLength` | proxylab-handout/csapp.c:804-826 | a line has no newline before its last byte, and ends with a newline, at the limit or at the end of the stream |
| `RioPackage.Call` | proxylab-handout/csapp.c:782-826 | one byte or line request delivers what it is due of the pending bytes; on a failure, what came is a prefix of it and the rest is still pending |
| `RioPackage.ServeMix` | proxylab-handout/csapp.c:782-826 | any mix of byte and line requests on one descriptor delivers, in order, exactly what each is due, however read() cuts the stream; delivered, partly delivered and pending bytes always add up to the stream, and it stops early only on a failure |
| `Relay.KeptRelayed` | proxylab-handout/proxy.c:275-281 | a piece kept or left out leaves the buffer a prefix of the response as long as that fits |
| `Relay.CopyResponse` | proxylab-handout/proxy.c:273-285 | the client gets the whole response; the object is added exactly if it is shorter than MAX_OBJECT_SIZE, and the buffer then holds all of it |
| `CommandLine.ParseUndoesPrint` | shlab-handout/tsh.c:222-267 | parsing a printed line, with any spaces around bare and quoted words, a newline at the end and possibly a quote that is never closed before it, gives exactly those words |
| `CommandLine.PrintExists` | shlab-handout/tsh.c:222-267 | every list of words can be printed so |
| `CommandLine.CutAfterSpaces` | shlab-handout/tsh.c:231-241 | after any spaces, the cut finds the word that was printed and its delimiter |
| `CommandLine.SplitWords` | shlab-handout/tsh.c:229-257 | the in-place loop fills the vector with the words of the line |
| `CommandLine.Parse` | shlab-handout/tsh.c:222-267 | for every line shorter than MAXLINE: the vector holds the words up to the first NUL, without a last one that begins with &; for a printed line these are the printed words; background exactly in that case or for a blank line; a write in front of the buffer exactly if the line is empty or begins with NUL |
| `SioLtoa.TextReadsBack` | proxylab-handout/csapp.c:222-238 | for every base from 2 to 36 the text reads back as v, without leading zeros, if and only if v is not LONG_MIN |
| `SioLtoa.DigitsBack` | proxylab-handout/csapp.c:229-231 | the digits of the loop, reversed, are a numeral of that value |
| `SioLtoa.DigitsFit` | proxylab-handout/csapp.c:229-231 | a long has at most 63 digits |
| `SioLtoa.ReverseInPlace` | proxylab-handout/csapp.c:211-219 | the swaps reverse the C string |
| `SioLtoa.Ltoa` | proxylab-handout/csapp.c:222-238 | the array holds the text of v |
| `Bits.IsLessOrEqualCompares` | datalab-handout/bits.c:236-245 | the expression is 1 exactly if x <= y, for all ints, overflow of x - y included |
| `Bits.HowManyBits` | datalab-handout/bits.c:270-292 | the binary search returns the least n with -2^(n-1) <= x < 2^(n-1) |
| `Bits.CountBits` | datalab-handout/tests.c:76-84 | the counting loop returns that same least n |
| `Bits.WidthUnique` | datalab-handout/tests.c:76-84 | there is only one least width, so the search and the loop agree |
| `Floats.FieldsByMask` | datalab-handout/bits.c:308-310 | the shifts and masks take out sign, exponent and fraction |
| `Floats.FloatScale2` | datalab-handout/bits.c:305-321 | the branches compute the encoding Scale2 describes by fields |
| `Floats.Scale2Doubles` | datalab-handout/bits.c:305-321 | the result is the double of the number, infinite on overflow, if and only if the exponent field is not 254 or the fraction is 0; a NaN is returned as it is |
| `Floats.Scale2OfHugeIsNaN` | datalab-handout/bits.c:319-320 | a finite number for which the result is a NaN |
| `Floats.FloatFloat2Int` | datalab-handout/bits.c:334-367 | the branches compute the int TruncBits describes by fields |
| `Floats.TruncBitsTruncates` | datalab-handout/bits.c:334-367 | the result is the number cut to an integer, or INT_MIN out of range, if and only if the unbiased exponent is not 31 or the fraction is 0 |
| `Floats.TruncBitsOfEdge` | datalab-handout/bits.c:352-366 | an out-of-range number for which the result is not INT_MIN |
| `Floats.FloatPower2` | datalab-handout/bits.c:381-399 | the encoding of 2^x, exact, zero or infinite, for every int x |
| `KBest.BestAreSmallest` | malloclab-handout/fcyc.c:66-96 | the kept values are sorted, are samples, and no sample left out is smaller |
| `KBest.BestStep` | malloclab-handout/fcyc.c:66-86 | the k best of one more sample are an insertion into the k best so far |
| `KBest.Sampler.AddSample` | malloclab-handout/fcyc.c:66-86 | the array holds the k best of all samples so far |
| `KBest.Sampler.HasConverged` | malloclab-handout/fcyc.c:91-96 | true exactly if k samples were seen and the k best are within 1 + epsilon of the smallest |

## Left out

- Allocator.Heap.Malloc: requires sizes up to the largest that is served; `RequestExact` shows that beyond it the block size wraps around or the class search of mm_right.c does not end.
- Allocator.Heap.GetListIdx: requires, as do the searches, a size up to 2^31 for mm_right.c, since beyond it the 32-bit loop does not end (`ClassSearchExact`).
- Allocator.Heap.Realloc: for mm.c it requires that memory does not run out, since that version copies to the null pointer when its mm_malloc fails; `Driver.TryRealloc` reports this case, and only this, as a crash. The order of the lists after it follows from those of mm_malloc and mm_free and is not stated again.
- Allocator.Heap.Unlink: removes a block before its tags are rewritten, also where mm_list.c writes the tags first; the two touch disjoint words.
- Driver.EvalMmValid: takes traces that name only blocks they have allocated and sizes from 1 to the largest request; add_range's overlap test is weaker than disjointness, which `Allocator.Heap.LiveBlocks` states in full.
- Replays.EvalTraces: stops before an mm_init of mm_list.c that would spoil the heap, since what that allocator does on such a heap is not modelled; how often the speed is measured is a parameter.
- Memory.MemLib.Sbrk: compares mathematical integers, as the pointers do while their 32-bit sum does not wrap around (`Memory.RefusedExact`); what the allocators do once a wrapped break has been granted is not modelled (`Allocator.NoMemoryExact` says when that is).
- Chars of the driver are signed, as for the compiler and flags of the Makefile; with unsigned chars no realloc would be misread.
- Addresses are offsets from the start of the arena, below 2^31; pointer width and the alignment of the arena itself are not modelled.
- mem_pagesize, the clock and the statistics of mdriver.c, and its replays with the allocator of the C library.
- CacheSim.Simulator.FindCache: requires the time stamp to be below INT_MAX, and the geometry needs at least one line; `1 << set` is taken as a power of two, although parse_cmd accepts set counts of 31 and more and s + b == 64, for which the C shifts are undefined.
- CacheSim.Simulator.Replay: hits, misses and evictions are unbounded; they equal the ints of the program as long as those do not overflow, which traces of fewer than 2^30 events cannot cause (`CacheTrace.CountersBounded`).
- Option parsing, trace-file reading and printing of csim.c.
- Coherence.SendsOnlyStored: the same url may be added twice, by two misses, and a later scan then finds the first; uniqueness is not claimed. It says nothing about the time after an overlong url has been copied past the end of its array, which has no defined meaning in C.
- ReaderWriter.SomeoneAwake: says that the protocol does not stop for good, not that a writer is ever served: readers can starve writers.
- Each copy into a slot and each send from one is a single step, since nobody else reads or writes the slot meanwhile (`ReaderWriter.WriterAlone`).
- Counters and stamps of the cache are unbounded integers; the mutex and condition variable are the POSIX ones, not modelled further.
- BoundedQueue.FdQueue.constructor: takes capacities from 0; a negative one makes the allocation fail, which ends the process.
- BoundedQueue.FdQueue.Put: covers the critical section after the wait loop; the wait itself is a step of the thread model.
- RioPackage.Readn: an endless sequence of interrupts is excluded, since the script of answers is finite; counts are below INT_MAX.
- CommandLine.Parse: what the program does after the write in front of its buffer is not modelled.
- Relay.CopyResponse: a failed transfer ends the process in the wrappers; here it ends the method. The connection, the headers and the request line are not part of it.
- SioLtoa.Ltoa: the buffer has room for 66 characters, as its caller's 128 do.
- KBest.Sampler.HasConverged: compares with the exact product, which C rounds to a double.
- KBest.Sampler.AddSample: samples are real numbers, so NaN is not modelled; the wraparound test array of the debugging build is not part of this model.
- The bit operators act on mathematical integers in two's complement, with truncation to 32 bits where C has it; the other puzzles of bits.c are short identities.
- Sockets, name lookup, files, signals, process control, parse_uri and build_headers, the Tiny server, the job table of tsh.c, and the abandoned drafts under cachelab-handout_back.
