# A verified model of the nvmalloc allocators

nvmalloc ships two heap allocators for non-volatile memory, and the data structures they rest
on. This project models their bookkeeping in Dafny and proves what keeps it consistent.

- **The boundary-tag heap** (`allocs/np_malloc.c`): chunks with boundary tags, a designated
  victim, a top chunk, small bins under a bit map and tree bins that are bitwise tries over
  chunk sizes. Modules `SizeBits`, `BinMap`, `Trie`, `TrieEdit`, `Ring`, `TreeChains`,
  `TreeSearch`, `TreeBins`, `SmallBins`, `Layout`, `FreeChunks`, `Heap`, `HeapUsers`, `HeapCheck`. The
  main results: the search of the tries returns a best fit over all chunks; every sequence of
  `dlnvmalloc` and `dlnvfree` keeps the heap valid, and on a valid heap every assertion of
  `do_check_malloc_state` holds; blocks are new, aligned, tight and disjoint.
- **The arena** (`allocs/arena.c`): page runs over chunks with a page map, two trees of available
  runs, a spare chunk and purging of dirty pages. Modules `PageRuns`, `PageMap`, `PageStates`,
  `ArenaState`, `ArenaOps`, `Arena`, `ArenaUsers`. Every sequence of operations keeps page map, trees and
  counters in agreement with a recount, and the number of dirty pages within its bound.
- **The bins of an arena**: modules `ArenaBins`, `Bitmap`, `RegionIndex`, `RunLayout`,
  `CleanPages`, `CleanEvents`, `CleanSystem`. Threads drop the bin lock to allocate and release
  runs; under every schedule no partly free run is lost or owned twice. The multi-level bitmap finds
  the least free region and the division-free region index is exact. All bins, the arena, its users and threads that purge or
  align runs together keep this under every schedule: no page that is free and clean has been
  touched since it was mapped or purged.
- **The chunk recycler** (`allocs/chunk.c`, `allocs/extent.c`, `allocs/huge.c`): modules `Align`, `Extents`,
  `ChunkPool`, `ChunkThreads`, `Huge`. Two trees over the same nodes; ranges never overlap under any
  schedule of threads; coalesced extents are a canonical form, so recycling and recording is a
  round trip.
- **The cuckoo hash table** (`allocs/ckh.c`): module `Cuckoo`. It answers as a finite map, and over any
  eviction chain the table and the item in hand are the old items and the new one.
- **Profiling contexts** (`allocs/prof.c`), **thread caches** (`allocs/tcache.c`) and **number
  texts** (`allocs/util.c`): modules `ProfContext`, `ThreadCache`, `NumberText`.

`dafny verify dfyconfig.toml` checks the whole project. `Basics` holds what several modules share,
and `Traces` what a schedule and its states are.

## How it is modelled

State that the source changes in place is a class whose fields hold the same things: map words,
links, tags and counters. Memory words that the source overlays on chunks are finite maps from
addresses, kept together in one record. Ghost fields hold the abstract value; each method states
the new abstract value in terms of the old one.

A red-black tree is a sequence of nodes kept in order (`Extents`), or a set whose least element is
searched (`Arena`, `ArenaBins`). Where a lock is dropped in the middle of a function, the function is
several methods, one for each critical section. A thread's place between them is part of the
state, and a method `Run` takes any schedule and tells its states: a predicate `Goes` says for each
event when it can happen and what it then does, and an event that cannot happen does nothing. The system, the node allocator and the random
choices of the hash table are parameters.

The 64-bit configuration with 8-byte alignment and without footers is modelled. Unsigned
wrap-around is written out wherever the code depends on it: remainders in the trie search, the
narrowing cast of the tree index, system request sizes, chunk sizes, the in-place growth of large
runs, the 32-bit region index, the overhead test of run sizes and number parsing.

## Where the code does not do what it says

- `compute_tree_index` narrows the shifted size to 32 bits. `TreeIndexExact` says for which sizes the
  result is right. The heap model keeps its segment below 2^40 bytes, where it always is.
- The comment on `arena_bin_lower_run` says that the current run is the lowest one with free regions.
  `LateRunIsNotLowest` is a schedule in which a thread that comes back with a fresh run breaks this.
  `Malloc`, `Free` and `Released` keep it, and `Resume` keeps it if and only if `NotLate` holds.
- The comment on `bin_info_run_size_calc` promises a limit on header overhead. The loop keeps the size
  before the one that ends it. `RunSizeCalc` states exactly when the limit is met, and
  `OverheadExceeded` gives a size class for which it is not. The test is also computed in 32 bits;
  `TestTells` and `TestMisses` say when that matters.
- A failed `prof_lookup` of an existing context does not take back its increment of `nlimbo`. `Run`
  states that the excess is exactly the number of such failures and that `DestroyStep` frees a
  context only without any; `LeakedContext` is a schedule that leaves one behind for good.
- The overflow test of `malloc_strtoumax` is incomplete. `StrToUMax` states exactly when it goes off,
  `ReadRightIff` exactly when a text is read right, `LastDigitNoticed` what that means for the usual
  overflow, and `MissedOverflow` gives a number that slips through. The prefix `0X` that `x2s`
  prints is not read.
- `ckh_insert` that fails without a successful grow has always inserted the new item and lost an
  older one; the new one can be in hand only after a grow. `EvictReloc`, `Insert` and `Run` state
  this for every table, and `FifthItem` gives a case.
- `chunk_recycle` loses the range behind the block when no node can be allocated for it, and so does
  `chunk_record` with its range. `TakeExtent`, `Record` and `ChunkThreads` account for lost ranges.

## Model

| member | source | states |
|---|---|---|
| `SizeBits.TreeIndexExact` | allocs/np_malloc.c:2316-2363 | compute_tree_index files a size under the bin whose range holds it if and only if the size is below 2^40 or the 32 bits that survive its narrowing cast still select the last bin |
| `SizeBits.TreeIndexWraps` | allocs/np_malloc.c:2316-2342 | a size of 2^40 is filed under bin 0: the narrowing does go wrong |
| `SizeBits.BinUnique` | allocs/np_malloc.c:2363-2377 | the size ranges of the 32 tree bins do not overlap |
| `SizeBits.TreeIndexMonotone` | allocs/np_malloc.c:2316-2363 | below the narrowing limit larger sizes never get a smaller bin index |
| `SizeBits.InBinIsLeadingBits` | allocs/np_malloc.c:2373-2377 | a size lies in a bin exactly when its leading bits are those of the bin index, so that all other bits are free for the trie |
| `SizeBits.ShiftExposesBit` | allocs/np_malloc.c:2368-2371 | after n left shifts the sign bit is bit 63 - n of the size: one shift per level inspects the next distinguishing bit |
| `BinMap.LeastMarked` | allocs/np_malloc.c:2393-2444 | least_bit and compute_bit2idx give the lowest marked bin |
| `BinMap.LeftBitsAreLaterBins` | allocs/np_malloc.c:2396-2400 | masking a bin map with left_bits keeps exactly the bins after the given one |
| `BinMap.NextMarked` | allocs/np_malloc.c:4373-4380 | for a small request the shift, mask, isolate and index computation finds the first marked bin from the given one on, whenever there is one |
| `Trie.LeftBelowRight` | allocs/np_malloc.c:2757-2805 | in a well-formed trie every size below a left child is smaller than every size below the right child |
| `Trie.UnderChild` | allocs/np_malloc.c:2757-2805 | what lies below a node lies below one of its children, chosen by the next size bit |
| `TrieEdit.HangRootKeeps` | allocs/np_malloc.c:3104-3118 | a first node in an empty bin makes a well-formed trie |
| `TrieEdit.HangLeafKeeps` | allocs/np_malloc.c:3118-3137 | a leaf hung where its size bits lead keeps the trie: path bits match size bits, one node per size |
| `TrieEdit.CutLeafKeeps` | allocs/np_malloc.c:3172-3241 | removing a leaf keeps the trie |
| `TrieEdit.SubstituteKeeps` | allocs/np_malloc.c:3205-3239 | a descendant leaf that takes over place, parent and children of a removed node, even its own child, keeps the trie |
| `TreeChains.JoinKeeps` | allocs/np_malloc.c:3139-3151 | a chunk of a size already present joins the ring of that size behind its tree node |
| `TreeChains.LeaveNode` | allocs/np_malloc.c:3172-3180 | the tree node of a ring of several chunks leaves it and its neighbour takes over |
| `TreeSearch.PathStepCovers` | allocs/np_malloc.c:4064-4083 | one step of the descent along the bits of the request loses no candidate: each is below the current node, below the remembered right subtree, or no better than the best chunk met |
| `TreeSearch.WrapComparesFits` | allocs/np_malloc.c:4067-4070 | the unsigned remainder is smaller than the best so far exactly when the chunk fits and is smaller; chunks too small wrap to large remainders |
| `TreeSearch.NextBinCovers` | allocs/np_malloc.c:4084-4093 | when nothing in the own bin fits, the first later marked bin holds a best fit |
| `TreeSearch.PathEnds` | allocs/np_malloc.c:4080-4084 | at the end of the descent the best fit is the best chunk met or lies below the deepest untaken right subtree |
| `TreeBins.TreeBins.Descend` | allocs/np_malloc.c:3119-3137 | the insertion descent ends at the node of the same size, or at an empty child slot that the size bits select; it terminates because each step resolves a bit |
| `TreeBins.TreeBins.InsertLarge` | allocs/np_malloc.c:3104-3154 | insert_large_chunk keeps tries, rings and map valid and adds exactly the one chunk |
| `TreeBins.TreeBins.UnlinkLarge` | allocs/np_malloc.c:3172-3241 | unlink_large_chunk, in all its cases, keeps tries, rings and map valid and removes exactly the one chunk |
| `TreeBins.TreeBins.LeafBelow` | allocs/np_malloc.c:3179-3196 | the replacement is a leaf below the removed node, known by its parent slot, and exists unless the node is itself a leaf |
| `TreeBins.TreeBins.FindBestFit` | allocs/np_malloc.c:4056-4105 | best fit: the chunk found is a smallest one that holds the request among all chunks of all tree bins, chained ones included, and none is reported only if none fits, for every large request |
| `TreeBins.TreeBins.BestOfAll` | allocs/np_malloc.c:4056-4105 | a best fit among the tree nodes is a best fit among all chunks |
| `TreeBins.TreeBins.FindLeast` | allocs/np_malloc.c:4127-4145 | the search of tmalloc_small finds a smallest of all tree chunks |
| `SmallBins.SmallBins.InsertSmall` | allocs/np_malloc.c:3026-3042 | the chunk is added to the ring of its size and the bin is marked, also when the links of the header are stale |
| `SmallBins.SmallBins.UnlinkSmall` | allocs/np_malloc.c:3045-3068 | exactly the one chunk is removed; an emptied bin only loses its mark |
| `SmallBins.SmallBins.UnlinkFirst` | allocs/np_malloc.c:3071-3086 | the first chunk of a bin is removed |
| `SmallBins.SmallBins.MarksTell` | allocs/np_malloc.c:2819-2845 | a bin is marked if and only if some chunk of exactly its size is held |
| `SmallBins.SmallBins.Find` | allocs/np_malloc.c:2847-2858 | the walk of bin_find around a small bin meets the chunk if and only if the bins hold it with that size |
| `TreeBins.TreeBins.Find` | allocs/np_malloc.c:2859-2876 | the descent and the walk of bin_find around a chain meet the chunk if and only if the tree bins hold it with that size |
| `Layout.SplitKeeps` | allocs/np_malloc.c:4110-4120 | splitting a free chunk keeps the tiling, the agreement of footers and pinuse bits with the neighbours, and that no two free chunks touch |
| `Layout.UseWholeKeeps` | allocs/np_malloc.c:4363-4371 | so does taking a free chunk whole |
| `Layout.CarveTopKeeps` | allocs/np_malloc.c:4436-4446 | so does carving from top |
| `Layout.FreeRangeKeeps` | allocs/np_malloc.c:4515-4575 | so does freeing a block merged with its free neighbours |
| `Layout.FreeIntoTopKeeps` | allocs/np_malloc.c:4533-4545 | so does freeing a block that borders top |
| `Layout.GrowTopKeeps` | allocs/np_malloc.c:3805-3835 | so does extending top at its end |
| `FreeChunks.SplitMatch` | allocs/np_malloc.c:2675-2937 | every free chunk stays exactly one of designated victim, small-binned, tree-binned or in hand across a split |
| `FreeChunks.FreeRangeMatch` | allocs/np_malloc.c:2675-2937 | and across a free with merging |
| `Heap.Heap.constructor` | allocs/np_malloc.c:3356-3378 | an initialised segment is one top chunk and meets every check |
| `Heap.Heap.ReplaceDv` | allocs/np_malloc.c:3090-3099 | the old victim, if any, is in its small bin, the chunk in hand is the victim, and the chunks are as before |
| `Heap.Heap.LargeChoice` | allocs/np_malloc.c:4056-4110 | comparing the unsigned remainders of tree chunk and victim picks a smallest fitting free chunk of both |
| `Heap.Heap.TmallocLarge` | allocs/np_malloc.c:4056-4124 | a large request is carved from a smallest fitting chunk, unless the victim is at least as good |
| `Heap.Heap.TmallocSmall` | allocs/np_malloc.c:4127-4162 | a small request is carved from a smallest tree chunk |
| `Heap.Heap.SmallRequest` | allocs/np_malloc.c:4349-4405 | the small-request path serves from a bin without remainder, the next bin or the tree, or leaves the heap unchanged for victim and top |
| `Heap.Heap.SysAlloc` | allocs/np_malloc.c:3644-3866 | when the system extends the segment top grows and serves the request; it fails, and changes nothing, exactly when the size overflows, the footprint limit is reached or the system refuses |
| `Heap.Heap.Malloc` | allocs/np_malloc.c:4306-4470 | the result is aligned and new, its chunk size s satisfies nb <= s < nb + MIN_CHUNK_SIZE, it is a smallest fitting choice, all other blocks are untouched, every heap check still holds, and failure means that nothing fits |
| `Heap.Heap.FreeBlock` | allocs/np_malloc.c:4489-4596 | exactly the block is no longer in use, all other blocks are untouched and every heap check still holds |
| `Heap.LiveDisjoint` | allocs/np_malloc.c:2743-2754 | blocks in use never overlap |
| `Heap.VictimCompare` | allocs/np_malloc.c:4105-4110 | the unsigned comparison of remainders with the victim means: the tree chunk is the better fit |
| `HeapUsers.Users.Serve` | allocs/np_malloc.c:2911-2937 | one request does exactly its own: a free takes that block and no other; a malloc hands out a new, aligned, tight block from a chunk chosen as promised, or changes nothing and then neither a free chunk nor top is large enough and the segment cannot grow |
| `HeapUsers.Users.Run` | allocs/np_malloc.c:2911-2937 | after every sequence of dlnvmalloc and dlnvfree, each step of which is such a one, the heap is valid, the blocks in use are exactly those handed out and not freed, and each is as long as asked for |
| `HeapCheck.BinFind` | allocs/np_malloc.c:2847-2876 | bin_find finds a chunk if and only if a small bin or a tree bin holds it |
| `HeapCheck.TraverseAndCheck` | allocs/np_malloc.c:2880-2908 | the walk from chunk to chunk meets every chunk but top exactly once, every check on the way passes, and the sizes add up to the segment |
| `HeapCheck.InuseChunkHolds` | allocs/np_malloc.c:2709-2717 | do_check_inuse_chunk passes on every chunk in use of a valid heap |
| `HeapCheck.FreeChunkHolds` | allocs/np_malloc.c:2720-2740 | do_check_free_chunk, links included, passes on every free chunk |
| `HeapCheck.CheckSmallBin` | allocs/np_malloc.c:2819-2845 | the backward walk meets exactly the chunks of the size, a bin whose header is its own neighbour is unmarked, the neighbour of each chunk is the header or of the same size, and every other check passes |
| `HeapCheck.CheckMallocState` | allocs/np_malloc.c:2911-2937 | every assertion of do_check_malloc_state holds on every valid heap, the total is the footprint and that is at most max_footprint |
| `HeapUsers.Users.BlocksApart` | allocs/np_malloc.c:2743-2754 | the bytes asked for by two callers never overlap |
| `Cuckoo.Table.constructor` | allocs/ckh.c:347-399 | ckh_new makes the smallest table that the requested number of items fills to less than three quarters |
| `Cuckoo.Table.BucketSearch` | allocs/ckh.c:53-65 | finds the key in a bucket, or the bucket does not hold it |
| `Cuckoo.Table.ISearch` | allocs/ckh.c:71-89 | finds the key, or no cell of the whole table holds it |
| `Cuckoo.Table.Search` | allocs/ckh.c:510-526 | answers exactly as the finite map that the table stands for |
| `Cuckoo.Table.TryBucketInsert` | allocs/ckh.c:92-115 | adds the item to the bucket; fails and changes nothing if and only if the bucket is full |
| `Cuckoo.Table.EvictReloc` | allocs/ckh.c:124-190 | over any chain of evictions the table and the item in hand together are the old contents and the new item; an item left in hand is one that was in the table before, never the new one |
| `Cuckoo.Table.TryInsert` | allocs/ckh.c:193-216 | the item is added to one of its buckets or by evictions; if that fails an item that was in the table before is in hand; a table of one bucket fails if and only if it is full |
| `Cuckoo.Table.Rebuild` | allocs/ckh.c:222-242 | moves exactly the items of the old table, or fails and leaves the count as it was |
| `Cuckoo.Table.Grow` | allocs/ckh.c:245-297 | same items in a larger table, or the very same table as before |
| `Cuckoo.Table.Shrink` | allocs/ckh.c:300-344 | same items in a table half as large, or the very same table as before |
| `Cuckoo.Table.Insert` | allocs/ckh.c:455-476 | on success the map has the pair; on failure it has all old pairs and the new one except the item in hand, which is an older one unless the table has grown; a full table of one bucket that cannot grow always fails |
| `Cuckoo.Table.Remove` | allocs/ckh.c:479-507 | returns what the map holds and removes that key only, with or without shrinking |
| `Cuckoo.Table.Iter` | allocs/ckh.c:435-452 | the next occupied cell, skipping only empty ones |
| `Cuckoo.Table.IterAll` | allocs/ckh.c:435-452 | iteration yields each pair of the map exactly once |
| `Cuckoo.Table.Run` | allocs/ckh.c:434-526 | over any sequence of inserts, removes and searches, with any grow, shrink and rebuild failures in between, every answer is that of a finite map; it stops early only at an insert of a new key that fails, then exactly the item in hand is missing, and that is the new one only after a grow |
| `Cuckoo.FifthItem` | allocs/ckh.c:455-476 | for every hash function the fifth item into a one-bucket table is stored and one of the four before it is lost |
| `Extents.TotalOrder` | allocs/extent.c:7-35 | both comparisons are total orders; by size and address only equal extents compare equal |
| `Extents.Nsearch` | allocs/chunk.c:60-66 | the least node not below the key, or none if there is none |
| `Extents.AddressOrderSurvives` | allocs/chunk.c:293-306 | changing the address of a node in place, to join a range it touches, keeps the address tree in order |
| `Extents.Canonical` | allocs/chunk.c:289-342 | two fully coalesced sets of extents that cover the same addresses are the same |
| `Align.AlignedBlockFits` | allocs/chunk.c:57-72 | every chunk-aligned extent of size + alignment - chunksize holds an aligned block of the size |
| `Align.AlignedBlockNeedsRoom` | allocs/chunk.c:57-72 | with one chunk less there is an extent that holds none |
| `ChunkPool.Chunks.FindExtent` | allocs/chunk.c:57-68 | the smallest and lowest extent of at least size + alignment - chunksize, none if there is none or the sum wraps |
| `ChunkPool.Chunks.TakeExtent` | allocs/chunk.c:57-106 | the first critical section: an aligned block is cut out, all other recorded addresses stay recorded except a pending trailing range, and nobody had the block or that range |
| `ChunkPool.Chunks.InsertTrail` | allocs/chunk.c:95-109 | the second critical section records exactly the pending range, under the new node |
| `ChunkPool.Chunks.Record` | allocs/chunk.c:275-344 | the range is recorded and coalesced on both sides; it is lost if and only if no node is spare and no extent follows it |
| `ChunkPool.Chunks.Recycle` | allocs/chunk.c:40-122 | without interference exactly the block is taken; this succeeds if and only if an extent is large enough and a node is there if the lowest best fit needs one; a failure leaves every address recorded or in use as it was, and coalesced extents stay coalesced |
| `ChunkPool.RoundTrip` | allocs/chunk.c:57-107 | recycling a block and recording it again restores exactly the same extents |
| `ChunkPool.Chunks.RecycleThenRecord` | allocs/chunk.c:275-344 | the same for the operations themselves |
| `ChunkPool.Chunks.Alloc` | allocs/chunk.c:132-191 | a block that was not in use and is aligned; it is obtained if and only if it can be recycled or mapped, and registered; for the base allocator nothing is recycled or registered and the trees stay as they are |
| `ChunkPool.Chunks.Dealloc` | allocs/chunk.c:347-368 | exactly the given range is no longer in use; it is lost if and only if it is not to be unmapped, or is to be recorded without a node and no extent follows it |
| `ChunkThreads.Threads.StartAlloc` | allocs/chunk.c:40-94 | the first critical section of chunk_recycle hands the block and the range behind it to the thread; the thread goes on to map if and only if the request is for the base allocator or no extent is large enough; no other range changes hands |
| `ChunkThreads.Threads.GotNode` | allocs/chunk.c:85-108 | with a node the range behind the block is recorded; without one it is lost, the block goes back and the thread goes on to map |
| `ChunkThreads.Threads.GotMap` | allocs/chunk.c:150-152 | the mapped range was nobody's; if the system has none the request fails |
| `ChunkThreads.Threads.Registered` | allocs/chunk.c:163-168 | the block is of the size and alignment asked for; if it cannot be registered it goes back |
| `ChunkThreads.Threads.EnterHuge` | allocs/huge.c:57-67 | no huge block is at the address when the new one is entered, whatever other threads do |
| `ChunkThreads.Threads.LeaveHuge` | allocs/huge.c:189-212 | the block leaves the tree before its memory goes back |
| `ChunkThreads.Threads.FinishDealloc` | allocs/chunk.c:347-368 | the range is given up; it is lost if and only if it is not to be unmapped, or is to be recorded without a node and no extent follows it; a failed chunk_recycle then goes on to map |
| `ChunkThreads.Threads.Step` | allocs/chunk.c:40-191 | each step between lock operations, of any thread in chunk_alloc, chunk_dealloc, huge_palloc or huge_dalloc, does what that step is for and nothing to other threads, keeps all ranges disjoint, and keeps every block that it does not free with its client or in the tree |
| `ChunkThreads.Threads.Run` | allocs/chunk.c:40-191 | so does every schedule, state by state, with lock drops, node, mapping and registration failures and lost ranges |
| `ChunkThreads.Threads.NoOverlap` | allocs/chunk.c:40-368 | blocks of clients, huge blocks, ranges in hand, lost ranges and recorded extents are pairwise disjoint |
| `Huge.CeilingHolds` | allocs/huge.c:33-39 | the rounded size is the least multiple of the chunk size, and zero exactly when it is not representable or the request is zero |
| `Huge.Huge.Palloc` | allocs/huge.c:26-78 | a new, aligned block of the rounded size is entered into the tree if and only if the size is representable, a node is there and the chunk layer finds a range; else the tree is unchanged; every other range in use stays, and coalesced extents stay coalesced |
| `Huge.Huge.Dalloc` | allocs/huge.c:189-216 | exactly this block leaves the tree and goes back, and every other range in use stays |
| `Huge.Huge.Salloc` | allocs/huge.c:219-236 | the size of the one range in use that starts at the address |
| `Huge.Huge.BlocksApart` | allocs/huge.c:26-78 | huge blocks are disjoint from each other and from everything recorded for reuse |
| `PageRuns.DivideKeeps` | allocs/arena.c:215-260 | dividing a run keeps pages map_bias to chunk_npages - 1 of each chunk tiled |
| `PageRuns.MergeKeeps` | allocs/arena.c:952-1010 | merging a run with the next keeps them tiled |
| `PageRuns.SumMerge` | allocs/arena.c:952-1010 | the recount of active and dirty pages changes by exactly what the two runs and the merged one weigh |
| `ArenaState.EntryBefore` | allocs/arena.c:983-990 | the map entry before a run is the last entry of the run before it, and tells its size and state |
| `ArenaOps.SplitKeeps` | allocs/arena.c:215-300 | splitting keeps the whole arena invariant: tiling, first and last entries, trees, counters, dirty list |
| `ArenaOps.JoinKeeps` | allocs/arena.c:952-1010 | joining free neighbours of equal dirtiness keeps it |
| `ArenaOps.CloseKeeps` | allocs/arena.c:1012-1026 | the coalesced run, once in its tree, leaves no two neighbouring free runs of equal dirtiness |
| `ArenaOps.DiscardKeeps` | allocs/arena.c:478-517 | giving back the spare chunk with its dirty pages keeps it |
| `ArenaOps.PurgedKeeps` | allocs/arena.c:728-740 | after all dirty runs of a chunk are stashed, subtracting the chunk's count makes the counters agree again |
| `Arena.Arena.PutSmall` | allocs/arena.c:335-362 | every page of a small run knows its index in the run |
| `Arena.Arena.RunSplit` | allocs/arena.c:215-368 | exactly the first pages of the free run come into use; counters move by exactly that |
| `Arena.Arena.FindFit` | allocs/arena.c:113-141 | the lowest best fit of one tree |
| `Arena.Arena.RunAllocHelper` | allocs/arena.c:520-560 | dirty runs first, then clean ones, each time the lowest best fit; none only if none fits |
| `Arena.Arena.RunAlloc` | allocs/arena.c:564-609 | a run that was not in use, of the length asked for, whose pages were free and as dirty as it says, or newly mapped; it fails if and only if no free run is long enough and there is neither a spare nor a new chunk |
| `Arena.Arena.ChunkAlloc` | allocs/arena.c:371-475 | the spare, or a new chunk as one clean free run |
| `Arena.Arena.ChunkDealloc` | allocs/arena.c:478-517 | the chunk becomes the spare and an older spare goes with its dirty pages; runs in use are untouched |
| `Arena.Arena.JoinNext` | allocs/arena.c:952-978 | forward coalescing; afterwards the next run differs in dirtiness or is in use |
| `Arena.Arena.JoinPrev` | allocs/arena.c:980-1010 | backward coalescing; afterwards both neighbours differ |
| `Arena.Arena.RunRelease` | allocs/arena.c:888-1028 | exactly this run is no longer in use; every page of it is free, dirty if the run was or is said to be and else clean, unless its chunk went back; no other page becomes free, dirty or clean |
| `Arena.ReleasedPage` | allocs/arena.c:888-1028 | a page of a run given back is, if still mapped, free as the change allows |
| `Arena.Arena.RunDalloc` | allocs/arena.c:888-1038 | the same, except that pages which were dirty may have been purged; after a dirty release the dirty bound holds |
| `Arena.Arena.CutHead` | allocs/arena.c:1041-1070 | up to the purging the run begins later, all other runs in use are the same, and exactly its first pages are given back, dirty if and only if the run was |
| `Arena.Arena.CutTail` | allocs/arena.c:1073-1103 | up to the purging the run ends earlier, and exactly its last pages are given back, dirty if they are said to be or the run was |
| `Arena.Arena.TrimHead` | allocs/arena.c:1041-1070 | the run now begins later, all other runs in use are the same, and the head is given back with the dirtiness of the run |
| `Arena.Arena.TrimTail` | allocs/arena.c:1073-1103 | the run now ends earlier; its tail is given back dirty or clean as said, and only purged pages become clean otherwise |
| `Arena.Arena.GrowLarge` | allocs/arena.c:1837-1900 | grows in place if and only if the following run is free and long enough, by as much as there is up to the extra; a negative difference wraps and fails |
| `Arena.Arena.ShrinkLarge` | allocs/arena.c:1807-1834 | the run has its new length and the dirty bound holds |
| `Arena.Arena.Palloc` | allocs/arena.c:1491-1542 | a new run of exactly the length asked for at an aligned address; none if and only if there is no room for the length and the alignment together |
| `Arena.Arena.MallocLarge` | allocs/arena.c:1452-1487 | a new large run; the dirty bound is kept |
| `Arena.Arena.DallocLarge` | allocs/arena.c:1777-1804 | exactly this run goes; the dirty bound holds |
| `Arena.Arena.Stash` | allocs/arena.c:663-727 | the walk over the map visits every run of the chunk and stashes exactly the free dirty ones |
| `Arena.Arena.PurgeBegin` | allocs/arena.c:624-746 | at the point where the lock is dropped the arena is well-formed, the free dirty runs of the chunk are in use and clean, and they are what was dirty |
| `Arena.Arena.PurgeStash` | allocs/arena.c:750-772 | every page of the stashed runs, and no other, is purged |
| `Arena.Arena.ReleaseStash` | allocs/arena.c:778-788 | the stashed runs, and nothing else, become free and clean |
| `Arena.Arena.ChunkPurge` | allocs/arena.c:624-789 | all runs in use and nactive are as before, ndirty drops by at least the chunk's dirty pages, only purged pages have become clean and only dirty pages are purged |
| `Arena.Arena.Purge` | allocs/arena.c:792-876 | terminates, restores npurgatory and all runs in use, and leaves at most the allowed dirty pages, none with all |
| `Arena.Arena.MaybePurge` | allocs/arena.c:612-621 | afterwards ndirty <= max(chunk_npages, nactive >> lg_dirty_mult) |
| `Arena.Arena.PurgeAll` | allocs/arena.c:879-885 | no dirty page is left |
| `Arena.Arena.ReleaseBinRun` | allocs/arena.c:1591-1634 | the first pages go back dirty and, if the run was clean, the pages from keep on go back clean; no other page becomes free, dirty or clean |
| `Arena.Arena.DallocBinRun` | allocs/arena.c:1591-1634 | the same with purging: each page kept back is dirty, purged or unmapped |
| `CleanPages.TrimUntouched` | allocs/arena.c:1606-1630 | with keep computed from nextind, no touched page is among those given back clean |
| `CleanPages.RunsChange` | allocs/arena.c:888-1028 | if the pages that become free and clean are untouched and the runs in use stay, apart from those given up, then no free and clean page is touched afterwards and users, bins and threads have what they had |
| `CleanSystem.HeadGone` | allocs/arena.c:1041-1070 | the pages before the aligned address go back clean only if the run in hand is clean, and then none of them is touched |
| `CleanSystem.HandedOver` | allocs/arena.c:1491-1542 | the aligned run goes to its user and what exceeds it goes back, clean pages untouched |
| `CleanSystem.Returned` | allocs/arena.c:774-788 | a run of a purged stash goes back clean and untouched, and the rest stays in hand |
| `CleanSystem.System.MallocLarge` | allocs/arena.c:1452-1487 | a new large run for a user, refused if and only if the arena is exhausted and gets no chunk; nothing becomes touched |
| `CleanSystem.System.ShrinkLarge` | allocs/arena.c:1807-1834 | the run is shorter and its tail, which may be touched, goes back dirty |
| `CleanSystem.System.GrowLarge` | allocs/arena.c:1837-1900 | the run grows in place if and only if the run behind it is free and long enough |
| `CleanSystem.System.BeginAlign` | allocs/arena.c:1491-1520 | a run with room to spare is in the thread's hand; the lock may be dropped before each trim |
| `CleanSystem.System.TrimAligned` | allocs/arena.c:1041-1070 | the run in hand begins at the aligned address |
| `CleanSystem.System.EndAlign` | allocs/arena.c:1073-1103 | the user has a run of exactly the length asked for at a multiple of the alignment |
| `CleanSystem.System.MallocSmall` | allocs/arena.c:1383-1400 | the pages touched are exactly those of the region handed out, with its redzones |
| `CleanSystem.System.RunForSmall` | allocs/arena.c:1178-1198 | the pages touched are exactly those of the new run's header; no run if and only if the arena is exhausted and gets no chunk |
| `CleanSystem.System.ReleaseSmall` | allocs/arena.c:1591-1639 | releasing an empty run with the nextind of its header leaves no touched page free and clean |
| `CleanSystem.System.BeginPurge` | allocs/arena.c:624-746 | a purging thread drops the lock with all dirty runs of the chunk in hand, which nobody else has |
| `CleanSystem.System.Advise` | allocs/arena.c:748-772 | exactly the pages in its hand count as untouched from then on |
| `CleanSystem.System.ReturnOne` | allocs/arena.c:774-788 | one run in hand goes back clean; the lock may be dropped before the next |
| `CleanSystem.System.CleanIsUntouched` | allocs/arena.c:1610-1616 | no page that is free and clean has been touched since it was mapped or purged |
| `CleanEvents.OneRegion` | allocs/arena.c:148-172 | the region that an event hands out is the only one in use afterwards that was not before |
| `CleanEvents.TouchedMeans` | allocs/arena.c:612-1639 | in every state of a schedule the touched pages are exactly those that an earlier event touched, or that were touched at the start, and that have been neither unmapped nor purged since |
| `CleanSystem.System.Step` | allocs/arena.c:612-1639 | each event, of any thread and any bin, does what it is for; the touched pages afterwards are those before that are still mapped, without those it purges and with those it touches |
| `CleanSystem.System.Run` | allocs/arena.c:612-1639 | under every schedule of threads that allocate, align, trim, grow, shrink, write, free, release and purge, over all bins, the arena is well-formed whenever its lock is free, and no event of the schedule has touched a page that is free and clean at its end, unless it was unmapped or purged in between |
| `Arena.Arena.SmallPageFindsRun` | allocs/arena.c:1671-1674 | from any page of a small run its map entry leads to the run's first page |
| `ArenaUsers.Users.Serve` | allocs/arena.c:214-1103 | one request does exactly its own: a new block of the length, kind and alignment asked for unless the arena is exhausted and gets no chunk, one block less, one block resized, or no dirty page left |
| `ArenaUsers.Users.Run` | allocs/arena.c:214-1103 | every sequence of allocations, releases, trims, resizes and purges, each step of which is such a one, keeps the page map, trees, recounts and the dirty bound, and every run that the sequence does not name |
| `ArenaUsers.Users.BlocksApart` | allocs/arena.c:214-1103 | runs in use never overlap and stay inside their chunk |
| `ArenaBins.RegAllocKeeps` | allocs/arena.c:148-172 | the region handed out is never beyond nextind, and no region from nextind on was ever handed out |
| `ArenaBins.SmallBin.OneOwner` | allocs/arena.c:1163-1266 | a run with free regions is exactly one of current run, member of the tree, held by one thread |
| `ArenaBins.SmallBin.TryGet` | allocs/arena.c:1151-1160 | the lowest run of the tree |
| `ArenaBins.SmallBin.Malloc` | allocs/arena.c:1383-1400 | the least free region of the current run, or else of the lowest run in the tree, is in use now; without either the thread goes to allocate a run |
| `ArenaBins.SmallBin.ArenaAnswers` | allocs/arena.c:1178-1198 | a fresh run is held by the thread that asked |
| `ArenaBins.SmallBin.Resume` | allocs/arena.c:1220-1266 | with the lock again the current run serves if another thread has set one up, and the run brought is released or shared; else the run brought, or the lowest of the tree, serves and is current; the current run stays the lowest one if and only if the thread brings no run, finds a current run with free regions, or brings one below all in the tree |
| `ArenaBins.LowerKeeps` | allocs/arena.c:1642-1660 | a partly free run becomes current or enters the tree, no other is lost, and if the current run was the lowest it still is |
| `ArenaBins.LateRunIsNotLowest` | allocs/arena.c:1646-1650 | a schedule that ends with a current run above a run with free regions in the tree, against the comment |
| `ArenaBins.SmallBin.Free` | allocs/arena.c:1663-1695 | exactly this region is free; a run without regions in use is in the hands of the freeing thread, and one that was full becomes current or enters the tree |
| `ArenaBins.SmallBin.Released` | allocs/arena.c:1591-1639 | the run had no region in use, and its nextind bounds every region ever handed out |
| `ArenaBins.SmallBin.Step` | allocs/arena.c:1162-1266 | each critical section of each thread does exactly its own; no region but the one freed goes out of use |
| `ArenaBins.SmallBin.Run` | allocs/arena.c:1162-1266 | under every schedule at lock granularity, state by state, no partly free run is lost or owned twice, and regions stay in use until freed |
| `Bitmap.Bits2Groups` | allocs/bitmap.c:12-17 | the one number of groups that is just enough |
| `Bitmap.GroupsMonotone` | allocs/bitmap.c:55-61 | a bitmap with more bits is not smaller |
| `Bitmap.BitmapInfoInit` | allocs/bitmap.c:20-45 | the level offsets add up to the groups of all levels, within the table |
| `Bitmap.InitLevel` | allocs/bitmap.c:64-90 | setting all words of a level and shifting the extra bits out of the last one sets exactly the bits that stand for something |
| `Bitmap.Bitmap.constructor` | allocs/bitmap.c:64-90 | all bits, and no others, are free, on every level |
| `Bitmap.Bitmap.Full` | jemalloc/internal/bitmap.h:71-77 | the root group is zero if and only if no bit is free |
| `Bitmap.Bitmap.FirstFree` | jemalloc/internal/bitmap.h:139-155 | the descent through the levels finds the least free bit |
| `Bitmap.Bitmap.Change` | jemalloc/internal/bitmap.h:92-209 | setting or unsetting a bit changes that bit only, and all levels still agree |
| `Bitmap.Bitmap.SetFirstUnset` | jemalloc/internal/bitmap.h:139-158 | the least free bit is returned and is the only one to change |
| `RegionIndex.MulShiftIsDivision` | jemalloc/internal/arena.h:773-787 | multiplying by the rounded-up inverse and shifting, in 32 bits, is exact division for every divisor of the table and every region index below 2048 |
| `RegionIndex.MulShiftOverflows` | jemalloc/internal/arena.h:773-787 | for index 2048 the 32-bit product overflows: the limit is exact |
| `RegionIndex.RegInd` | jemalloc/internal/arena.h:734-795 | the region index is recovered for every region size and every index below 2048 |
| `RunLayout.FitRegions` | allocs/arena.c:2150-2181 | the largest region count under the cap for which header and bitmap do not overlap the regions |
| `RunLayout.RunSizeCalc` | allocs/arena.c:2096-2244 | min_run_size <= run_size <= arena_maxclass, the largest region count, every byte accounted for; the promised limit on header overhead is met if and only if the smallest run meets it and the next larger size ends the loop |
| `RunLayout.TestTells` | allocs/arena.c:2215-2220 | the 32-bit overhead test never goes off below the limit, and misses nothing for headers below 1 MiB |
| `RunLayout.TestMisses` | allocs/arena.c:2215-2220 | with regions of a megabyte it misses a header above the limit |
| `RunLayout.OverheadExceeded` | jemalloc/internal/arena.h:3-24 | for 16-byte regions the run chosen is above the limit though two pages would meet it |
| `RunLayout.CleanTrimSound` | allocs/arena.c:1608-1630 | no byte of the header, of a region ever handed out or of its redzone lies in the pages given back as clean; at least one page is kept |
| `RunLayout.ThirdRoundHolds` | allocs/arena.c:2267-2286 | the third map_bias is not below the second and its pages hold the header and the page map it implies |
| `RunLayout.MapBias` | allocs/arena.c:2262-2288 | the same of the loop |
| `ProfContext.Profile.LookupStep` | allocs/prof.c:461-504 | an existing context is found and protected, a new one starts protected; no context disappears |
| `ProfContext.Profile.LinkStep` | allocs/prof.c:541-544 | the thread's counter is linked with zero counts and the thread is out of limbo |
| `ProfContext.Profile.FailStep` | allocs/prof.c:521-540 | a failed lookup of an existing context leaves its nlimbo exactly one too high; after one of a new context the thread goes on to destroy it |
| `ProfContext.Profile.MergeStep` | allocs/prof.c:717-752 | the counts move from the counter to the context; the thread undertakes to destroy it if and only if nothing refers to it any more and no lookup of it has failed, unless counts are accumulated |
| `ProfContext.CheckExact` | allocs/prof.c:689-690 | the check before giving a context up succeeds if and only if nothing but the given destroyers refers to it and nlimbo has not leaked |
| `ProfContext.CheckSuffices` | allocs/prof.c:689-697 | what prof_ctx_destroy checks implies that nothing else refers to the context, and that curbytes is zero as it asserts |
| `ProfContext.Profile.DestroyStep` | allocs/prof.c:675-714 | a context is freed if and only if no counter is linked, no live object is counted, no other thread is about to use it and no lookup of it has failed |
| `ProfContext.Profile.FreeStep` | jemalloc/internal/prof.h:538-579 | the context of a live object still exists, whichever thread frees it; the counts go down in the thread's counter if it has one and else in the context |
| `ProfContext.Profile.Step` | allocs/prof.c:461-752 | each step does exactly its own; nlimbo gains on the threads it counts only when a lookup of an existing context fails, by one; a context disappears only when nothing else refers to it |
| `ProfContext.Profile.Run` | allocs/prof.c:461-752 | under every interleaving counts equal the live objects, whatever is referred to exists, and nlimbo exceeds the threads in limbo and the destroyers by exactly the number of lookups that found the context and failed; after one such failure it is never destroyed |
| `ProfContext.LeakedContext` | allocs/prof.c:521-540 | a schedule after which nothing refers to a context and nobody will destroy it |
| `ThreadCache.Bin.Pass` | allocs/tcache.c:107-137 | the objects of the locked arena are given back and the others moved to the front, both in order |
| `ThreadCache.Bin.Flush` | allocs/tcache.c:82-161 | all but the last rem objects go back, each exactly once and to its own arena, in at most one pass per arena; the last rem stay in order |
| `ThreadCache.PassShrinks` | allocs/tcache.c:91-137 | every pass retires the first object, so the loop ends |
| `ThreadCache.Bin.EventHard` | allocs/tcache.c:28-65 | three quarters of the unused objects, rounded up, are flushed, and the fill count stays at least one |
| `NumberText.U2S` | allocs/util.c:203-243 | the digits of the number, most significant first, inside the buffer, ended by a null |
| `NumberText.O2S` | allocs/util.c:272-282 | the octal digits, with one leading zero in the alternate form |
| `NumberText.X2S` | allocs/util.c:285-295 | the hexadecimal digits, with prefix in the alternate form |
| `NumberText.DigitsDenote` | allocs/util.c:203-243 | the digits printed denote the number |
| `NumberText.StrToUMax` | allocs/util.c:100-200 | spaces, sign, prefix and digits are read as far as they go; overflow is reported if and only if some digit makes the number smaller modulo 2^64; else the result is the number modulo 2^64 |
| `NumberText.ReadRightIff` | allocs/util.c:172-200 | a text is read right, reported if its number does not fit and else read with its sign, if and only if the number fits or some digit makes it smaller modulo 2^64 |
| `NumberText.NoFalseAlarm` | allocs/util.c:172-186 | overflow is never reported for a number that fits |
| `NumberText.LastDigitNoticed` | allocs/util.c:172-186 | when only the last digit overflows, that is noticed if and only if the number modulo 2^64 is less than the number without that digit |
| `NumberText.MissedOverflow` | allocs/util.c:172-186 | 30000000000000000000 does not fit and is read as another number without a report |
| `NumberText.PrintParse` | allocs/util.c:100-243 | for every 64-bit number and base 2 to 36 parsing what was printed gives the number back, consumes all digits and reports no overflow |
| `NumberText.OctalParse` | allocs/util.c:134-142 | the alternate octal form is read back with base 0 |
| `NumberText.HexParse` | allocs/util.c:143-158 | the alternate lower-case hexadecimal form is read back with base 0 |
| `NumberText.UpperHexStops` | allocs/util.c:143-158 | the upper-case form is not: only the zero before the X is read |

## Left out

- `sys_trim`, `release_unused_segments`, `add_segment`, `prepend_alloc` and mapped chunks of the heap: one segment that grows at its end is modelled.
- `Malloc`: requires that the system does not extend the segment to 2^40 bytes or more, because above that limit the tree index is wrong as `TreeIndexExact` states.
- `InsertLarge`: requires sizes below 2^40 for the same reason.
- `try_realloc_chunk`, `mmap_alloc`, `mmap_resize` and the aligned and batch allocation of the heap: not reached from the exported functions or built from the modelled ones.
- `EvictReloc`: an eviction chain is also given up after `limit` more steps than the first, as if it had come back to its start, because with arbitrary hashes it need not end; no claim is made about its termination.
- `Cuckoo.Table`: a table that ckh_new cannot allocate, and the hash and key comparison functions of ckh.c, which are parameters here.
- `Flush`: the merging of request statistics under the arena locks.
- `Profile`: accumulated counts, dumping, and the eviction of a thread's least recently used counter, which is a merge followed by a link.
- `RunSizeCalc`: redzones are off, and arena_maxclass is below 2^32, the width of the offsets it computes.
- `Bitmap`: the words of all levels are kept level by level and not in one flat array; `BitmapInfoInit` gives the offsets.
- `SysAlloc`: new and prepended segments, as said above.
- `FreeBlock`: trimming of top and release of segments after a free, as said above.
- `ChunkThreads.Threads.Run`: the radix tree and the node allocator are answers of the environment; dss memory is not modelled.
- d2s and the printf family of util.c: formatting around the modelled conversions.
- The arena's unzeroed flags, junk and zero filling, cache flushes, statistics other than nactive and ndirty.
- `ArenaUsers.Users.Run`: runs the arena sequentially, as the bound on dirty pages supposes. Threads that purge or align with the lock dropped are in `CleanSystem.System.Run`, which makes no claim on that bound and takes the decision when to purge as given; a thread that purges in the middle of trimming an aligned run goes there under a second thread number.
- `Palloc`: overflow of size + alignment, which the caller's size classes exclude.
- huge_ralloc and mremap: built from huge_palloc and huge_dalloc.
- The implementations of red-black trees and lists (rb.h, ql.h): modelled by what they compute.
- pvmobj, optimized and checkpoint: files, mappings, signals and transfers, where external state dominates.
- ctl.c, stats.c, jemalloc.c, mutex.c, tsd.c, base.c, rtree.c, quarantine.c, chunk_mmap.c, chunk_dss.c: configuration, reporting, boot order and system calls.
