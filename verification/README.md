# Verified models of GraphBolt and of three DGL kernels

This Dafny project models the CPU path of GraphBolt (`graphbolt/src`) and three small
kernels of DGL and dgl_sparse, and proves what their code and documentation promise.
`dafny verify dfyconfig.toml` checks everything.

Modules, one file each:

- **Probing, ConcurrentInsert, IdHashMap** — the lock-free id hash map: probe coverage,
  insertion under every interleaving of compare-and-swap steps, and the count, scan and
  relabel phases on the shared arrays, up to `UniqueAndCompact`.
- **Circular, CacheEviction, Policies, CacheBatch** — the ring buffer, the eviction loops
  of S3-FIFO, SIEVE, LRU and Clock against a closed form (the oldest unpinned entry of
  least frequency), one policy class for the four kinds, and the batch operations.
- **SharedEviction, BatchShared** — the same loops, insertions and whole batches, while
  other threads complete their reads and writes between any two inspections.
- **CacheCoherence, FeatureStorage** — runs of clients, policy and row storage as a state
  machine, and the same argument on the objects themselves.
- **Partitioning, Merging, PartitionedPolicies** — the parallel stable counting sort, the
  merge of the partitions' answers, and `Query`, `QueryAndReplace` and `Replace` on real
  partitions.
- **Sampling, Labor, TemporalSampling, HeteroSampling** — the pickers, the LABOR heap with
  and without replacement, the temporal fast path, and the layout for several edge types.
- **OnDiskReader, RequestRing, QueuePool** — the io_uring worker loop with short reads and
  any number of workers, the ring its requests live in, and the pool of submission queues.
- **Bcast, SharedMemory, ArchiveCodec, Sparse** — broadcast offsets, the shared-memory writer
  and reader with a serialisation it can use, and sparse relabelling and alignment.
- **Arithmetic, Collections** — facts about quotients, sets and sequences.

Randomness is an oracle: any function whose draws stay in range and under which every value
keeps coming up (`Sampling.FairExists` gives one). Clocks, threads and the kernel appear as
arbitrary schedules, interleavings and completion lengths.

What the proofs show about the code beyond its documentation:

- `FastTemporalPick` never accepts an edge of a graph with edge timestamps: the test is
  followed by an unconditional `continue` (graphbolt/src/fused_csc_sampling_graph.cc:1159-1167).
  Counts still agree, since both callers then fall back to the mask.
- A fanout of -1 is documented to pick all neighbours, but the fast path reserves room for
  the raw fanout (graphbolt/src/fused_csc_sampling_graph.cc:1133), which throws: temporal
  sampling refuses it exactly for a column of more than 1000 neighbours without weights
  (`AllOfLargeRefused` is an input).
- `ReplaceImpl` pins a key that it finds readable and returns no pointer for it
  (graphbolt/src/cache_policy.cc:159-170), so the pin is never released. It finds every key
  that was being read, only keys that were readable before the call, and exactly those if
  the batch fits into the free slots.
- The check "larger cache capacity is needed" cannot fail. A batch too large for the
  unpinned part of the cache makes the eviction loop spin instead, until a completion:
  it ends if and only if an entry it looks at is unpinned sooner or later. A batch of no
  more keys than the capacity less the small queue's target always ends once everything
  handed out before it is completed.
- Weighted picking with replacement divides the prefix sums by their total only if that is
  outside [0.99999, 1.00001] (graphbolt/src/fused_csc_sampling_graph.cc:1487-1492). For a
  total in [0.99999, 1) a draw above the total finds no neighbour and the index is read
  past the end (`LightTotalFails` is an input); for every other total all draws in [0, 1)
  find one (`AllDrawsFind`).
- Pushing to a full `CircularQueue` empties it; all uses stay within the capacity.
- `unique_ids_` is the seeds, copied unchecked, followed by the first occurrences outside
  them: the deduplicated input if and only if the seeds are distinct. Labels decode in
  either case.
- `CompactIndices` needs distinct leading ids: no relabelling of the promised form exists
  otherwise.

## Model

| member | source | states |
|---|---|---|
| `Probing.MapSize` | graphbolt/src/concurrent_id_hash_map.cc:23-26 | the capacity exceeds three times the number of ids (and is at most six times it), so two thirds of the table stay free |
| `Probing.WalkIsSlot` | graphbolt/src/concurrent_id_hash_map.cc:124-130 | the incremental position after k calls of Next is the closed form id + 1² + .. + k² modulo the capacity |
| `Probing.EvenProbesDistinct` | graphbolt/src/concurrent_id_hash_map.cc:124-130 | two different even steps below twice the capacity never probe the same slot (the offsets differ by a multiple of an odd number) |
| `Probing.ProbesCoverTable` | graphbolt/src/concurrent_id_hash_map.cc:124-130 | every slot of a table of any power-of-two size is probed within 2 * capacity steps, from any id |
| `Probing.WrapKeepsSlot` | graphbolt/src/concurrent_id_hash_map.cc:128-128 | computing pos + delta² in fixed-width arithmetic probes the same slot |
| `ConcurrentInsert.RunInv` | graphbolt/src/concurrent_id_hash_map.cc:182-213 | the invariant of all insertion tasks and of the table holds after every interleaving of their compare-and-swap steps, including spurious weak failures |
| `ConcurrentInsert.KeysPersist` | graphbolt/src/concurrent_id_hash_map.cc:204-207 | a key once written into a slot is never changed by later steps |
| `ConcurrentInsert.PlacedUnique` | graphbolt/src/concurrent_id_hash_map.cc:183-188 | an id sits in at most one slot of a consistent table |
| `ConcurrentInsert.FreeSlotExists` | graphbolt/src/concurrent_id_hash_map.cc:37-41 | a consistent table over the ids always has an empty slot |
| `ConcurrentInsert.PathBounded` | graphbolt/src/concurrent_id_hash_map.cc:183-188 | a probe path without the id or an empty slot is shorter than twice the capacity |
| `ConcurrentInsert.InsertionFindsPlace` | graphbolt/src/concurrent_id_hash_map.cc:183-188 | under every interleaving no task has to probe 2 * capacity times |
| `ConcurrentInsert.SoloFinishes` | graphbolt/src/concurrent_id_hash_map.cc:182-198 | from every reachable state a task finishes within 2 * capacity + 2 steps of its own, wherever the others have stopped |
| `ConcurrentInsert.CanComplete` | graphbolt/src/concurrent_id_hash_map.cc:47-51 | every run can be continued to one in which all insertions are finished |
| `ConcurrentInsert.FirstIndex` | graphbolt/src/concurrent_id_hash_map.cc:194-197 | the value a finished insertion must leave: the least index at which the id occurs |
| `ConcurrentInsert.CompleteRunIsBuilt` | graphbolt/src/concurrent_id_hash_map.cc:182-213 | whatever the interleaving, once all tasks are finished each id is in exactly one slot on an unbroken probe path with the least index of its occurrences |
| `IdHashMap.ConcurrentIdHashMap.constructor` | graphbolt/src/concurrent_id_hash_map.cc:33-95 | the unique ids are the seeds as given followed by the first occurrences outside them, in order, and every id maps to an index at which it stands there, for every schedule and every division into chunks; they are the deduplicated input if and only if the seeds are distinct |
| `IdHashMap.ConcurrentIdHashMap.InsertAll` | graphbolt/src/concurrent_id_hash_map.cc:47-51 | the shared table after an arbitrary schedule is the table of the interleaving model |
| `IdHashMap.ConcurrentIdHashMap.CountFirsts` | graphbolt/src/concurrent_id_hash_map.cc:62-79 | first occurrences outside the seeds are marked, and the prefix sums are the numbers of them before each chunk |
| `IdHashMap.ConcurrentIdHashMap.RelabelAll` | graphbolt/src/concurrent_id_hash_map.cc:82-94 | after the relabel phase the map takes every id to an index of it among the unique ids, also if seeds repeat |
| `IdHashMap.ConcurrentIdHashMap.MapId` | graphbolt/src/concurrent_id_hash_map.cc:133-146 | lookup stops for every id, returns the stored value of a present one and reports an absent one |
| `IdHashMap.ConcurrentIdHashMap.MapIds` | graphbolt/src/concurrent_id_hash_map.cc:98-112 | all labels, or an error naming an id that is not in the map |
| `IdHashMap.ConcurrentIdHashMap.Set` | graphbolt/src/concurrent_id_hash_map.cc:161-169 | changes the value of one present key and nothing else |
| `IdHashMap.LabelDecodes` | graphbolt/src/concurrent_id_hash_map.cc:89-91 | the label written for a first occurrence is an index of its id among the unique ids, also if seeds repeat |
| `IdHashMap.LabelsDisjoint` | graphbolt/src/concurrent_id_hash_map.cc:86-91 | two workers of the relabel phase never write the same cell of the unique ids |
| `IdHashMap.UniqueAndCompact` | graphbolt/src/unique_and_compact.cc:30-44 | compacted sources and destinations decode to the original ids, and the unique ids are the given ones followed by the new ones; it succeeds exactly when every destination is a known id and the world size is at most 1 |
| `IdHashMap.KeptIsDedup` | graphbolt/src/concurrent_id_hash_map.cc:53-53 | seeds followed by the first occurrences outside them are the deduplicated ids if and only if the seeds are distinct |
| `IdHashMap.RepeatedSeedIsKept` | graphbolt/src/concurrent_id_hash_map.cc:53-53 | an input for which they are not: a seed given twice is kept twice |
| `CacheEviction.VictimUnique` | graphbolt/src/cache_policy.h:327-342 | a queue has exactly one oldest unpinned entry of least frequency |
| `CacheEviction.EvictMainQueue` | graphbolt/src/cache_policy.h:327-342 | whenever an unpinned entry exists the loop stops; it evicts that unique entry, rotates the queue behind it and lowers frequencies by the passes made |
| `CacheEviction.EvictSmallQueue` | graphbolt/src/cache_policy.h:344-367 | of the entries beyond the target size the oldest unused and unpinned one is evicted; those behind it move to the main queue with frequency 0 |
| `CacheEviction.EvictSieve` | graphbolt/src/cache_policy.h:455-474 | the scan from the hand stops at its victim, keeps the order of the queue, and leaves the hand at the end marker or at a live entry that is not the front |
| `CacheEviction.EvictLru` | graphbolt/src/cache_policy.h:553-568 | the least recently used unpinned entry is evicted; pinned ones move to the front in order |
| `CacheEviction.EvictClock` | graphbolt/src/cache_policy.h:647-664 | the second-chance victim is evicted, the reference bits of the entries passed over are cleared |
| `CacheEviction.AgedBounded` | graphbolt/src/cache_policy.h:327-342 | a scan never makes more full passes than the frequency of some unpinned entry |
| `CacheEviction.AllPinnedSpins` | graphbolt/src/cache_policy.h:327-342 | with every entry pinned one turn of the loop leaves every entry pinned: it waits for a completion |
| `SharedEviction.EndsIfFreed` | graphbolt/src/cache_policy.h:327-342 | while other threads complete reads and writes, the loop over a queue ends if and only if some entry of it is unpinned sooner or later |
| `SharedEviction.SharedOneOut` | graphbolt/src/cache_policy.h:86-124 | whatever completes meanwhile, the victim was unpinned when it was taken, and the other entries have only been completed and aged |
| `SharedEviction.QuietIsEvicted` | graphbolt/src/cache_policy.h:327-342 | with nobody else active that loop evicts the entry the closed form names |
| `SharedEviction.EvictMainShared` | graphbolt/src/cache_policy.h:327-342 | with completions between its inspections the loop stops at the first inspection that meets an unpinned entry whose frequency its visits have used up |
| `SharedEviction.EvictSmallShared` | graphbolt/src/cache_policy.h:344-367 | the same for the small queue: at the first inspection that meets an unused, unpinned entry, or at the target size |
| `SharedEviction.EvictSieveShared` | graphbolt/src/cache_policy.h:455-474 | the same for SIEVE, whose hand stops behind the victim |
| `SharedEviction.EvictLruShared` | graphbolt/src/cache_policy.h:553-568 | the same for LRU |
| `SharedEviction.EvictClockShared` | graphbolt/src/cache_policy.h:647-664 | the same for Clock |
| `SharedEviction.EvictS3Shared` | graphbolt/src/cache_policy.h:369-374 | both loops of S3-FIFO in turn: the small queue gives the victim exactly if one of its inspections meets one |
| `SharedEviction.S3EndsIfOpened` | graphbolt/src/cache_policy.h:344-374 | the two loops of S3-FIFO together end if and only if an entry that they look at, in the small queue beyond its target or in the main queue, is unpinned sooner or later |
| `SharedEviction.InsertShared` | graphbolt/src/cache_policy.h:315-324 | an insertion, for every kind, that waits for completions: if a slot is free or an entry it looks at is unpinned sooner or later it ends, with the effect of the completions so far followed by an insertion at once; invariant kept |
| `SharedEviction.InsertsNow` | graphbolt/src/cache_policy.h:369-374 | an insertion that finds a victim at once needs no completion |
| `Circular.CircularQueue.Push` | graphbolt/src/circular_queue.h:38-42 | appends to the contents; pushing to a full queue empties it |
| `Circular.CircularQueue.Pop` | graphbolt/src/circular_queue.h:44-44 | removes and returns the oldest element |
| `Circular.CircularQueue.PopN` | graphbolt/src/circular_queue.h:46-49 | removes the n oldest elements |
| `Circular.CircularQueue.IsFull` | graphbolt/src/circular_queue.h:55-58 | full exactly when the contents have as many elements as the capacity asked for |
| `Circular.CircularQueue.Size` | graphbolt/src/circular_queue.h:60-64 | the number of elements in the contents, wrapped or not |
| `Policies.CachePolicy.constructor` | graphbolt/src/cache_policy.cc:198-206 | an empty policy of each of the four kinds satisfies the invariant; S3-FIFO gives a tenth of the capacity to the small queue and remembers as many keys as the rest |
| `Policies.CachePolicy.Read` | graphbolt/src/cache_policy.h:289-298 | a readable resident gets one pin more and is returned, one being written is only touched; S3-FIFO counts the use up to 3, SIEVE and Clock mark it, LRU puts the entry first and keeps the order of the others; nothing else changes and the invariant is kept |
| `Policies.CachePolicy.Emplace` | graphbolt/src/cache_policy.h:302-313 | the same lookup, with the same effect on pins, uses and order, and the sentinel for an absent key |
| `Policies.CachePolicy.InsertS3` | graphbolt/src/cache_policy.h:315-324 | where no completion has to be waited for: a new entry, pinned for writing, in a fresh slot or the slot of one evicted unpinned entry; a remembered key goes to the main queue; invariant kept |
| `Policies.CachePolicy.InsertSingle` | graphbolt/src/cache_policy.h:446-452 | the same for SIEVE, LRU and Clock |
| `Policies.CachePolicy.Insert` | graphbolt/src/cache_policy.h:315-324 | the net effect for every kind: the victim had no pin and is not the new entry, all others keep key, position and pins |
| `Policies.CachePolicy.Remember` | graphbolt/src/cache_policy.h:354-363 | the ghost ring displaces its oldest key when full, so it never overflows, and the ghost set stays inside it |
| `Policies.CachePolicy.EndUse` | graphbolt/src/cache_policy.h:98-109 | one pin less for a reader, readable for a writer; nothing else changes |
| `Policies.CachePolicy.Bookkeeping` | graphbolt/src/cache_policy.h:376-382 | in every reachable state the queues list every entry once, the map has exactly their keys, positions are exactly 0 .. usage - 1, the ghost set is inside the ghost ring and disjoint from the residents, the ring has room, and uses are at most 3 for S3-FIFO, 1 for SIEVE and Clock, 0 for LRU |
| `Policies.CachePolicy.RoomCanInsert` | graphbolt/src/cache_policy.h:369-374 | an insertion finds a victim whenever more entries are unpinned than the small queue may shelter |
| `Policies.CachePolicy.CanInsertIs` | graphbolt/src/cache_policy.h:369-374 | an insertion need not wait exactly if a slot is free or an unpinned entry is in the main queue or in the small queue beyond its target |
| `Policies.CachePolicy.ReadThenInsert` | graphbolt/src/cache_policy.h:515-570 | for all four kinds: a resident that was just read and released outlives the next insertion, if the eviction may inspect another entry that is unpinned and has no uses left; for LRU, which counts no uses, if any other entry is unpinned |
| `Policies.S3Spares` | graphbolt/src/cache_policy.h:327-367 | the S3-FIFO part of it: promotion resets the uses of the entry read, but puts it in front of the unused one |
| `Policies.UnpinnedScanned` | graphbolt/src/cache_policy.h:344-367 | that many unpinned entries cannot all be sheltered from the scan |
| `Policies.PositionsTile` | graphbolt/src/cache_policy.h:369-371 | resident positions are exactly 0 .. usage - 1 |
| `CacheBatch.QueryImpl` | graphbolt/src/cache_policy.cc:27-73 | every readable key is found and pinned once per occurrence; found indices then missing ones are a permutation of the batch; the missing keys are those not readable |
| `CacheBatch.SplitPermutation` | graphbolt/src/cache_policy.cc:56-67 | filling the index buffer from both ends lists every index exactly once |
| `CacheBatch.QueryAndReplaceImpl` | graphbolt/src/cache_policy.cc:75-132 | readable keys are pinned, absent ones get an entry to write, a null pointer is explained by another writer or by another occurrence in the batch, and pins change by exactly the pointers handed out; it stops early only at an absent key that has to wait for a completion, and never if all keys are resident or there is room for those that are absent or unpinned |
| `CacheBatch.PositionsDistinct` | graphbolt/src/cache_policy.cc:120-127 | positions handed out for writing in one batch are pairwise different and inside the cache, others negative: the capacity check never fires |
| `CacheBatch.ReplaceImpl` | graphbolt/src/cache_policy.cc:134-174 | absent keys get entries to write; a key found readable is pinned and no pointer is returned. Such a key was readable before the call, a key that was being read is always one, and if the batch fits into the free slots they are exactly the readable keys |
| `CacheBatch.ReplaceConserves` | graphbolt/src/cache_policy.cc:159-170 | when no key of the batch is readable before the call, Replace leaves no pin behind |
| `CacheBatch.LeaksNext` | graphbolt/src/cache_policy.cc:159-170 | a key that was being read before the call is still resident when Replace reaches it, and is leaked |
| `BatchShared.QueryAndReplaceShared` | graphbolt/src/cache_policy.cc:75-132 | the whole batch while other threads complete: an insertion waits for the completions it needs, and the answer contract holds against the nodes before the batch with the completions so far; it gets stuck only at an absent key whose insertion never ends, and ends if there is room for its keys once everything handed out before is completed |
| `BatchShared.ReplaceShared` | graphbolt/src/cache_policy.cc:134-174 | the same for Replace: the keys it finds, whose pins leak, are readable in the end, and a key being read throughout is one of them |
| `BatchShared.QuietBatch` | graphbolt/src/cache_policy.cc:75-132 | without completions that contract is exactly the contract of QueryAndReplaceImpl |
| `BatchShared.DrainedRoom` | graphbolt/src/cache_policy.h:369-374 | if everything handed out before a batch is completed, there is room for all keys but as many as the small queue may shelter: a batch of that size always ends |
| `BatchShared.DonePinned` | graphbolt/src/cache_policy.h:86-124 | completions of earlier reads and writes act on the nodes as they would have without the batch, and touch none of its pins and new entries |
| `BatchShared.CompletionsExist` | graphbolt/src/cache_policy.h:86-124 | from every state there are completions that release everything in flight |
| `CacheCoherence.NextInv` | graphbolt/src/cache_policy.cc:104-129 | every step of clients and policy keeps: tickets are live, counts equal tickets plus leaked pins, rows of readable entries are the backing rows |
| `CacheCoherence.RunInv` | graphbolt/src/cache_policy.cc:104-129 | that invariant after every run, for all four kinds |
| `CacheCoherence.ReadsAreCoherent` | graphbolt/src/feature_cache.cc:50-56 | in every run a row read at a hit position before its ReadingCompleted is the backing row of the key |
| `CacheCoherence.TicketsStayLive` | graphbolt/src/cache_policy.h:86-124 | an entry with an outstanding ticket is never removed and keeps its key and position |
| `CacheCoherence.QuiescentCounts` | graphbolt/src/cache_policy.cc:176-196 | after all completions the count of an entry is the number of pins that Replace leaked on it |
| `CacheCoherence.LeakIsForever` | graphbolt/src/cache_policy.cc:159-170 | a leaked pin is never released |
| `FeatureStorage.FeatureCache.Query` | graphbolt/src/feature_cache.cc:36-57 | output row indices[i] is the stored row positions[i] |
| `FeatureStorage.FeatureCache.Replace` | graphbolt/src/feature_cache.cc:68-87 | rows with nonnegative position are stored, others skipped, everything else is unchanged; refused exactly if the numbers of rows differ or the rows are not empty and have another number of bytes than those of the cache |
| `FeatureStorage.Clients.ReadRow` | graphbolt/src/feature_cache.cc:50-56 | reading with a ticket yields the backing row of the ticket's key |
| `FeatureStorage.RunScript` | graphbolt/src/feature_cache.cc:36-87 | for any script of interleaved client commands on the real policy and storage objects every read with a held ticket is recorded, in order, and every recorded row is the backing row of its key |
| `Partitioning.RankOrder` | graphbolt/src/partitioned_cache_policy.cc:121-136 | write positions order by part, then by input position; no two elements share one |
| `Partitioning.CountParts` | graphbolt/src/partitioned_cache_policy.cc:82-90 | the table of counts per worker and part, and the part of every key |
| `Partitioning.InclusiveScan` | graphbolt/src/partitioned_cache_policy.cc:105-107 | the scan of the transposed counts gives where every worker writes its first key of every part |
| `Partitioning.Scatter` | graphbolt/src/partitioned_cache_policy.cc:125-135 | every key and its index land at the rank, and the slice boundaries are the part starts |
| `Partitioning.Partition` | graphbolt/src/partitioned_cache_policy.cc:68-138 | indices is a permutation, permuted keys are keys[indices], slices tile the output, every key lies in the slice of its part, in input order |
| `Partitioning.SliceExact` | graphbolt/src/partitioned_cache_policy.h:161-171 | a cell lies in slice p if and only if its key is assigned to part p |
| `Partitioning.CapacityTiles` | graphbolt/src/partitioned_cache_policy.cc:60-64 | every position of the cache lies in the range of some partition |
| `Partitioning.ChunkIs` | graphbolt/src/partitioned_cache_policy.cc:83-84 | chunk t begins at the whole part of t * n / num |
| `Partitioning.ChunkOrder` | graphbolt/src/partitioned_cache_policy.cc:60-64 | the ranges of the partitions follow each other |
| `Merging.ExclusiveScan` | graphbolt/src/partitioned_cache_policy.cc:187-189 | cell i holds the sum of the first i sizes |
| `Merging.Merge` | graphbolt/src/partitioned_cache_policy.cc:190-242 | the output tensors are all hits by partition followed by all misses by partition, positions shifted by the start of the partition |
| `Merging.MergedPosition` | graphbolt/src/partitioned_cache_policy.cc:215-219 | the position and pointer of the i-th answer of a partition are found at its cell of the output, shifted |
| `Merging.MergedContract` | graphbolt/src/partitioned_cache_policy.cc:187-242 | output indices are a permutation, hits come first, missing keys stand beside their indices, every position lies in the range of its key's partition or is negative |
| `Merging.BatchIsLocal` | graphbolt/src/cache_policy.cc:104-131 | the answer of QueryAndReplaceImpl meets the contract a partition must meet |
| `Merging.QueryIsLocal` | graphbolt/src/cache_policy.cc:56-72 | the answer of QueryImpl meets the contract a partition must meet |
| `PartitionedPolicies.PartitionedCachePolicy.constructor` | graphbolt/src/partitioned_cache_policy.cc:56-65 | one policy per partition, of capacity (t + 1) * capacity / num - t * capacity / num, with separate state |
| `PartitionedPolicies.PartitionedCachePolicy.Query` | graphbolt/src/partitioned_cache_policy.cc:141-243 | on the real policies: the merged contract, every hit is a pinned entry of its key in its partition at the global position, every miss a key that is not readable there, which keys are readable does not change, and the pins of every partition grow by exactly the pointers in its block of the hits |
| `PartitionedPolicies.PartitionedCachePolicy.QueryAndReplace` | graphbolt/src/partitioned_cache_policy.cc:259-372 | the same with every miss an entry being written, or null beside another writer. Waiting or not, every partition has answered a prefix of its keys by the contract of QueryAndReplaceImpl and stops only at an absent key without a victim; it waits exactly if one has stopped, never if every partition serves its keys. The pins of a partition grow by exactly the pointers in its block of the hits |
| `PartitionedPolicies.PartitionedCachePolicy.Replace` | graphbolt/src/partitioned_cache_policy.cc:386-451 | without offsets positions come back in the order of the keys and pointers in the order of the parts, with offsets both in the given order; every key is then resident in the partition of its slice, new or in use. Waiting or not, every partition has done a prefix of its slice; the pins it leaks are those of keys found readable, for which null is returned, and every key being read is among them |
| `PartitionedPolicies.SliceOwned` | graphbolt/src/partitioned_cache_policy.h:161-171 | a slice of the rearranged keys is the keys assigned to its partition, in the order of the batch |
| `Sampling.NumPick` | graphbolt/src/fused_csc_sampling_graph.cc:1062-1082 | the number to pick from the count of nonzero weights |
| `Sampling.CountZeros` | graphbolt/src/fused_csc_sampling_graph.cc:1067-1076 | the loop counts the weights that are zero: those left are the nonzero ones |
| `Sampling.UniformPick` | graphbolt/src/fused_csc_sampling_graph.cc:1313-1410 | as many as promised, inside the column, distinct without replacement; which ones, in terms of the random numbers: all in order, one draw for each pick, the front of the shuffle, or the values that came up first |
| `Sampling.Shuffle` | graphbolt/src/fused_csc_sampling_graph.cc:1353-1362 | the picks are the front of the column after the swaps with the drawn places, the first of them offset + rng(0, 0, n); they are different neighbours |
| `Sampling.ShuffledOnce` | graphbolt/src/fused_csc_sampling_graph.cc:1353-1362 | different draws choose differently |
| `Sampling.ShuffledReaches` | graphbolt/src/fused_csc_sampling_graph.cc:1353-1362 | every choice of different neighbours, in every order, comes from some draws, so draws and choices correspond one to one |
| `Sampling.LinearPick` | graphbolt/src/fused_csc_sampling_graph.cc:1370-1383 | rejection by search stops with the different values that came up first, in that order |
| `Sampling.SetPick` | graphbolt/src/fused_csc_sampling_graph.cc:1401-1407 | rejection by hash set stops with the different values that came up first |
| `Sampling.NonUniformPickOp` | graphbolt/src/fused_csc_sampling_graph.cc:1413-1507 | agrees with NumPick, picks only nonzero weights, distinct without replacement, and then an edge left out has no greater weight over its exponential number than one taken; with replacement the picks are those hit by the draws, and it fails exactly if a draw finds none |
| `Sampling.Multinomial` | graphbolt/src/fused_csc_sampling_graph.cc:1479-1504 | every draw picks the neighbour whose prefix sums it lies between; it fails exactly if some draw exceeds the last prefix sum |
| `Sampling.HitsOne` | graphbolt/src/fused_csc_sampling_graph.cc:1495-1503 | a draw lies between the prefix sums of at most one neighbour |
| `Sampling.AllDrawsFind` | graphbolt/src/fused_csc_sampling_graph.cc:1487-1492 | every draw in [0, 1) finds a neighbour if and only if the total weight is not in [0.99999, 1), where it is not divided out |
| `Sampling.LightTotalFails` | graphbolt/src/fused_csc_sampling_graph.cc:1487-1492 | an input in that gap: total weight 0.999995 and the draw 0.999999, which finds no neighbour |
| `Sampling.SelectGreatest` | graphbolt/src/fused_csc_sampling_graph.cc:1463-1477 | the k greatest scores come first, the entries are only rearranged |
| `Sampling.Pick` | graphbolt/src/fused_csc_sampling_graph.cc:1562-1577 | count and fill agree for every fanout, replacement, weight and random outcome, unless a weighted draw with replacement finds no neighbour; the picks are chosen by the weights as in NonUniformPickOp, or uniformly as in UniformPick |
| `Sampling.AllPicked` | graphbolt/src/fused_csc_sampling_graph.cc:1514-1520 | if all are asked for, or no more may be picked than the fanout, every edge of nonzero weight is picked |
| `Labor.LaborPickDistinct` | graphbolt/src/fused_csc_sampling_graph.cc:1945-1977 | without replacement an edge is picked exactly when its key is finite and fewer than fanout edges come before it by (key, neighbour): no edge left out has a smaller random number over its weight, and none of weight 0 is picked |
| `Labor.SmallestRank` | graphbolt/src/fused_csc_sampling_graph.cc:1956-1967 | the bounded heap keeps a neighbour if and only if fewer than k precede it |
| `Labor.SmallestCount` | graphbolt/src/fused_csc_sampling_graph.cc:1970-1977 | the number of finite kept keys is what NumPick says |
| `Labor.Sample` | graphbolt/src/fused_csc_sampling_graph.cc:1890-1913 | one draw keeps the race invariant: the heap holds the smallest draws seen, a neighbour that is out can never come back |
| `Labor.RejectDraw` | graphbolt/src/fused_csc_sampling_graph.cc:1909-1912 | a rejected draw rules out all later draws of its neighbour |
| `Labor.DrawMonotone` | graphbolt/src/fused_csc_sampling_graph.cc:1790-1797 | the numbers generated for a neighbour ascend and never exceed 1 over its weight |
| `Labor.LaborPickReplace` | graphbolt/src/fused_csc_sampling_graph.cc:1858-1926 | with replacement the heap ends with the smallest fanout of all n * fanout numbers, each taken over its weight, although only some are generated; their neighbours are the picks, and the count agrees with NumPick |
| `Labor.LaborPick` | graphbolt/src/fused_csc_sampling_graph.cc:1735-1775 | count and fill agree for the LABOR samplers, for every fanout, replacement and weight, and the picks are the smallest numbers over their weights |
| `TemporalSampling.TemporalMask` | graphbolt/src/fused_csc_sampling_graph.cc:1084-1111 | true exactly for edges strictly older than the seed and inside the window, with nonzero weight |
| `TemporalSampling.WeightAllowed` | graphbolt/src/fused_csc_sampling_graph.cc:1608-1620 | the weights that are sampled are those of the admitted edges, 1 without weights, and 0 for all others |
| `TemporalSampling.FastTemporalPick` | graphbolt/src/fused_csc_sampling_graph.cc:1119-1178 | succeeds exactly if the first 1000 draws hold fanout edges that are old enough, different without replacement, and returns the first of them; with edge timestamps only for fanout 0 |
| `TemporalSampling.TemporalNumPick` | graphbolt/src/fused_csc_sampling_graph.cc:1180-1209 | the count of the mask path, whatever the fast path draws; refused exactly if all neighbours (fanout -1) of a column of more than 1000 without weights are asked for |
| `TemporalSampling.TemporalPick` | graphbolt/src/fused_csc_sampling_graph.cc:1579-1626 | picks as many as that count, only allowed edges, unless a draw with replacement finds none or the request is refused like the count; they are the edges of the fast path where it succeeds, and elsewhere chosen by the masked weights as in NonUniformPickOp |
| `TemporalSampling.TemporalLaborPick` | graphbolt/src/fused_csc_sampling_graph.cc:1607-1631 | the same for LABOR on the masked weights, with the smallest numbers over them |
| `TemporalSampling.TemporalColumn` | graphbolt/src/fused_csc_sampling_graph.cc:678-689 | counting and picking with different random numbers agree whenever picking finds its edges, so the run-time check never fails; refused together |
| `HeteroSampling.BoundExact` | graphbolt/src/fused_csc_sampling_graph.cc:1229-1232 | in a column sorted by type a segment holds exactly the edges of its type |
| `HeteroSampling.NumPickByEtype` | graphbolt/src/fused_csc_sampling_graph.cc:1212-1255 | every row of the seed gets the number to pick for its type, no other row changes |
| `HeteroSampling.CountsScanned` | graphbolt/src/fused_csc_sampling_graph.cc:605-608 | after the scan every block starts where the one before ends and every row is as long as its number |
| `HeteroSampling.SegmentBounds` | graphbolt/src/fused_csc_sampling_graph.cc:1665-1676 | the row of a type and seed has room for exactly what is picked: the check on the counts cannot fail |
| `HeteroSampling.PickByEtype` | graphbolt/src/fused_csc_sampling_graph.cc:1634-1690 | the segments of the seed are filled, all others are untouched; it fails exactly if one of the picks it asks for fails |
| `HeteroSampling.FillNeighbours` | graphbolt/src/fused_csc_sampling_graph.cc:712-740 | the neighbours of the picked edges, less the offset of their node type |
| `HeteroSampling.SampleNeighbors` | graphbolt/src/fused_csc_sampling_graph.cc:484-777 | blocks are index pointers from 0 to the difference of the edge offsets, and segments tile the output. The row of a type and a seed holds as many edges as asked for out of those of the type between the seed's two index pointers, all of them for fanout -1, each with its end beside it; refused exactly when a seed is not a node or a pick that it asks for fails |
| `HeteroSampling.BlockAtOffset` | graphbolt/src/fused_csc_sampling_graph.cc:633-644 | block e starts at edge offset e |
| `HeteroSampling.PickerExists` | graphbolt/src/fused_csc_sampling_graph.cc:1562-1577 | for every well-formed request there is a picker with the contract that the layout assumes |
| `OnDiskReader.ReadFitsSlot` | graphbolt/src/cnumpy.cc:142-155 | aligned reads start and end on blocks, contain the wanted bytes and fit their buffer slot of the rounded row size plus a block |
| `OnDiskReader.ShortReadReassembles` | graphbolt/src/cnumpy.cc:271-292 | a short completion copies only file bytes to their places, and the follow-up request asks for exactly the others |
| `OnDiskReader.InFlightBounded` | graphbolt/src/cnumpy.cc:206-213 | queued requests and requests in flight never exceed 512 |
| `OnDiskReader.AsksForRoom` | graphbolt/src/cnumpy.cc:206-213 | a worker asks for the items that fit into its queue and under 512 requests |
| `OnDiskReader.SlotsNotReused` | graphbolt/src/cnumpy.cc:202-205 | no live request shares its slot among 2048 or its queue cell among 2049 with another or with the next one |
| `RequestRing.PushRequest` | graphbolt/src/cnumpy.cc:242-248 | a request is put into a ring cell that no request in flight uses, so every request in flight still stands in its cell |
| `RequestRing.SubmitRequests` | graphbolt/src/cnumpy.cc:186-200 | however few entries the kernel takes at a time, in the end all queued requests are in flight, counted, and found in their cells |
| `RequestRing.Enqueue` | graphbolt/src/cnumpy.cc:282-289 | pushing and submitting on the ring is the push of the worker model |
| `RequestRing.HandleCompletion` | graphbolt/src/cnumpy.cc:263-293 | a completion finds its own request through its pointer into the ring, and the ring then holds what the worker model says |
| `OnDiskReader.StepBounded` | graphbolt/src/cnumpy.cc:186-200 | every step keeps the bounds, and every overflow check along it passes |
| `OnDiskReader.NextInv` | graphbolt/src/cnumpy.cc:201-299 | every step of every worker keeps: each wanted byte is right, owed by some worker, or unclaimed |
| `OnDiskReader.RunBounded` | graphbolt/src/cnumpy.cc:186-299 | in every reachable state an awaited completion can be handled, reads fit, and the next checks pass |
| `OnDiskReader.FinishedReads` | graphbolt/src/cnumpy.cc:214-222 | for any number of workers, interleaving and short reads: at the end an error is reported exactly if an index is not between minus the number of rows and that number, and byte b of every row in range is byte prefix + id * size + b of the file, negative ids counted from the end |
| `QueuePool.TicketMeansQueue` | graphbolt/src/cnumpy.h:202-217 | a thread with a ticket always finds a free queue that nobody else uses |
| `QueuePool.AllReturned` | graphbolt/src/cnumpy.h:164-192 | after all reads every ticket is back and every queue is free |
| `Bcast.OffsetIsFlat` | src/bcast.cc:55-78 | the cell of a multi-index holds the row-major offset of it in the operand with 0 on broadcast axes, inside the operand |
| `Bcast.AddAxis` | src/bcast.cc:62-74 | one axis repeats the block of the earlier axes, shifted by the stride where the operand has the axis |
| `Bcast.CalcBcastOff` | src/bcast.cc:36-89 | for compatible shapes of any rank both vectors have the output's length and are right at every multi-index; lengths and reduce size fit the operands |
| `Bcast.UseBcast` | src/bcast.cc:18-26 | true exactly if the operator reads both operands and their ranks or feature shapes differ |
| `Bcast.UnbroadcastFlat` | src/bcast.cc:79-88 | otherwise the operands have the axes of the output, and their cells are the output's own |
| `SharedMemory.RoundedSize` | graphbolt/src/shared_memory_helper.cc:31-34 | the next multiple of 8 |
| `SharedMemory.VectorSizes` | graphbolt/src/shared_memory_helper.cc:97-97 | the bytes of a tensor of one axis, by element type |
| `SharedMemory.NumelProduct` | graphbolt/src/shared_memory_helper.cc:97-97 | the numbers of elements of two groups of axes multiply |
| `SharedMemory.RecordRead` | graphbolt/src/shared_memory_helper.cc:66-75 | a metadata record gives back its string, starts 8-aligned and ends within the memory |
| `SharedMemory.SharedMemoryHelper.Flush` | graphbolt/src/shared_memory_helper.cc:178-214 | the memories get exactly the computed sizes and hold all records |
| `SharedMemory.SharedMemoryHelper.ReadTorchTensor` | graphbolt/src/shared_memory_helper.cc:89-103 | reads back the next tensor or its absence; the cursor check passes |
| `SharedMemory.SharedMemoryHelper.ReadTorchTensorDict` | graphbolt/src/shared_memory_helper.cc:127-142 | reads back the next dictionary or its absence |
| `SharedMemory.WriteThenRead` | graphbolt/src/shared_memory_helper.cc:61-214 | any items written, flushed and read in order by another helper come back equal, both cursors ending at the sizes, for any invertible serialisation whose archives of these items are shorter than 2^63 bytes |
| `ArchiveCodec.CodecExists` | graphbolt/src/shared_memory_helper.cc:61-103 | for any items with at most 2^64 archives there is such a serialisation |
| `SharedMemory.CopyAndLoad` | graphbolt/src/fused_csc_sampling_graph.cc:1012-1053 | the graph loaded from shared memory equals the graph copied to it |
| `Sparse.RevertPermutation` | dgl_sparse/src/matrix_ops.cc:59-64 | the inverse of the permutation |
| `Sparse.CompactIndices` | dgl_sparse/src/matrix_ops.cc:75-110 | labels decode to the row indices, leading ids keep their places, the others follow ascending, none twice |
| `Sparse.LabelsFaithful` | dgl_sparse/src/matrix_ops.cc:106-109 | equal labels mean equal indices and the other way round |
| `Sparse.LeadingMustDiffer` | dgl_sparse/src/matrix_ops.cc:99-101 | leading ids must be distinct for any such relabelling to exist |
| `Sparse.COOSort` | dgl_sparse/src/sparse_format.cc:143-153 | coordinates by row and within a row by column, by some permutation |
| `Sparse.SortedUnique` | dgl_sparse/src/elemenwise_op.cc:137-139 | duplicate-free matrices with the same pattern sort to the same coordinates |
| `Sparse.SpSpDiv` | dgl_sparse/src/elemenwise_op.cc:121-148 | succeeds exactly on duplicate-free matrices with the same pattern, and divides values at the same coordinate in the left matrix's order |
| `Sparse.COOIntersection` | dgl_sparse/src/matrix_ops.cc:22-56 | the common coordinates in row-major order, each once, with their places in both matrices |
| `Sparse.SpSpMul` | dgl_sparse/src/elemenwise_op.cc:102-119 | refused exactly on duplicates, otherwise one product per common coordinate, in row-major order |

## Left out

- GPU dispatch, pinned memory, type dispatch, futures and asynchronous wrappers.
- Memory orders: atomics are sequentially consistent steps. The reference count is unbounded, so its 8-bit limit and the error for too many readers do not occur; keys are unbounded integers.
- List nodes are entries of an address-indexed store and a queue is the sequence of its addresses, instead of linked heap objects; freeing and reuse of addresses are visible. The four policy classes are one class with a kind, and the sentinel left in the map between `Emplace` and `Insert` is folded into the null result.
- Parallel loops run chunk by chunk in thread order; for the loops whose workers could collide the lemmas named above show that their write sets differ. Only the insertion phase of the hash map, the on-disk workers, the queue pool, the cache clients and the completions during an eviction or a batch are interleaved.
- CacheBatch.QueryAndReplaceImpl: stops before an insertion that would have to wait; `BatchShared.QueryAndReplaceShared` is the batch that waits, on a single policy.
- Policies.CachePolicy.Insert: requires that an insertion need not wait for a completion; `SharedEviction.InsertShared` is the insertion that may.
- Policies.CachePolicy.InsertS3: the same.
- Policies.CachePolicy.InsertSingle: the same.
- SharedEviction.InsertShared: requires that an entry is unpinned sooner or later; otherwise the source spins for ever, as `SharedEviction.EndsIfFreed` and `SharedEviction.S3EndsIfOpened` show.
- BatchShared.QueryAndReplaceShared: completions happen in rounds before every lookup and every inspection, and none happens after some round; a batch that would spin for ever stops there instead.
- CacheBatch.ReplaceImpl: stops before an insertion that would have to wait, as `BatchShared.ReplaceShared` does not. For a batch larger than the free slots the leaked keys are bounded from both sides, since an eviction may remove a readable key before it is reached.
- PartitionedPolicies.PartitionedCachePolicy.QueryAndReplace: the partitions answer one after the other, and one that has to wait for a completion stops there instead.
- PartitionedPolicies.PartitionedCachePolicy.Replace: the same.
- The generator in `PartAssignment` is any function from keys to parts, and the overflow check of `AddOffset` for narrow index types is not modelled.
- FeatureStorage.RunScript: rows have at least one byte; writing empty rows stores nothing.
- Probing.MapSize: is defined for at least one id; for none the source converts the logarithm of zero.
- Floating-point rounding: weights and scores are reals, and LABOR draws are products of arbitrary factors in [0, 1]; distributions are not described.
- Sampling.NonUniformPickOp: weights are nonnegative.
- Sampling.UniformPick: termination of the two rejection loops assumes that every value keeps coming up.
- TemporalSampling.TemporalNumPick: the error thrown by `reserve` for a negative fanout is the result None.
- HeteroSampling.SampleNeighbors: pickers are functions that fail or have the contract proved of `Pick` and `LaborPick`; a failed pick, where the source reads past the end, ends the call. Columns are sorted by type, the types lie below the number of fanouts, and they point into the seed's group, which the source assumes or checks. Sampling a heterogeneous graph as a homogeneous one, and the variants by edge type of temporal sampling, are not modelled.
- The heap of `std::make_heap`, `partial_sort` and `nth_element` are represented by what they promise (the greatest entry, the greatest entries first).
- OnDiskReader.NextInv: completions are nonnegative and a sweep handles exactly the completions it waited for; negative error numbers are not modelled, and with endless empty reads the loop need not end. The masks that round to the block size are written as rounding, which they are for powers of two.
- Bcast.CalcBcastOff: the 32-bit `out_len` and strides are unbounded.
- SharedMemory.SharedMemoryHelper.Flush: sizes are unbounded; serialisation of an archive is any pair of inverse functions (`ArchiveCodec.CodecExists` gives one), and a memory's name is the helper that wrote it.
- Sparse.CompactIndices: requires distinct leading ids, as documented by `LeadingMustDiffer`; with repeated ones the scatters of the source are unspecified or fail on their sizes.
- Autograd, matrix products, format conversions and the other sparse operators; `CompactCOO` and `CompactCSR` only pass the labels on.
- In-subgraph, chunking and index-selection helpers, which add no harder property.
