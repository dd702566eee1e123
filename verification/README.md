# OxiStore, verified model

A Dafny model of the parts of OxiStore whose correctness rests on state kept in step across several
structures, with proofs about whole runs of them.

`dafny verify dfyconfig.toml` checks the project.

## What is modelled

**Caches** (`oxistore-cache`). `Lru`, `Lfu`, `Arc` and `TinyLfu` describe each policy as functions on
values and prove what every run keeps; `LruCaches`, `LfuCaches`, `ArcCaches` and `TinyLfuCaches` are
the mutable objects, each method proved to take the specified step. `LruReference`, `LfuReference`,
`ArcReference` and `TinyLfuReference` are second, searching forms of the four without lists or tables, over
the directory of `Shelves` or a map of their own, whose answers the caches are proved to give. `Sketch` is the frequency estimator as a grid of
counters and a set of positions; `SketchTables` is the same in packed bytes and 64-bit words.
`WriteBack` and `Bounded`, with their objects, are the write-back adapter and the byte budget; `BoundedOrder`
says when the budget counts exactly;
`WriteBackOverLfu`, `WriteBackOverArc` and `WriteBackOverTinyLfu` put the adapter over the other policies.
`LinkedMaps` models the linked hash map as a duplicate-free key sequence and a map.

**Key-value store** (`oxistore-kv-fjall`, `oxistore-core`). `TtlStore` is the store with a second
keyspace for expiries and lazy removal, against a reference that removes keys the moment they expire.
`Transactions` is the write batch and the overlay. `FjallStores` and `FjallTransactions` are the
objects. `CompareAndSwap` is a state machine of many callers, the transaction lock and lock-free
readers, and `UnlockedWrites` says what breaks it, and what operations without
the lock do to it. `Expiry`, `PrefixScan`, `LittleEndian`, `ByteOrder` and `Words` are the parts they rest on.

**Predicate pushdown** (`oxistore-columnar`). `Predicates` is the predicate tree under three-valued
logic and pruning by statistics, `Utf8` the test of its string scalars; `PredicateTables` is batch evaluation, the filter and the pruned read.

**Envelope encryption** (`oxistore-encrypt`). `Keyrings`, `Envelopes` and `EnvelopeStores` are the key
versions, the byte layout and the rotation loop. The cipher is a pair of functions of which only
"opening undoes sealing" and the 16-byte tag are assumed. `Envelopes.LawfulCipherExists` shows the
assumption can be met.

**Kernels.** `Calendar` (`oxistore-blob-azure`) is the civil-calendar arithmetic; `MemoryBlobs`
(`oxistore-blob`) is pagination and the quota of the in-memory blob store.

Clock readings, hash values, random keys and nonces are arguments. Backing stores do not fail.

## Where the code and its documentation or comments differ

The model follows the code. Each point is a lemma in the table.

- An LRU capacity of 0 is documented as evicting on the next insertion; it never evicts (`Lru.ZeroCapacityIsUnbounded`, `Lru.InclusionIff`).
- Shrinking an LFU cache can loop for ever or leave it unable to evict (`Lfu.ResizeLoopsForEver`, `Lfu.ResizeTerminatesIff`, `Lfu.ResizeKeepsInvIff`).
- A comment in ARC states that live entries stay within the capacity; one branch breaks it (`Arc.InsertWithinCapacityIff`), and the directory can outgrow twice the capacity (`Arc.DirectoryBoundIff`).
- W-TinyLFU at its minimum capacity of 2 misses every live probation key (`TinyLfu.HitIff`).
- `get_or_insert` is commented as unable to panic; an entry may expire between its two clock readings, and an LFU cache of capacity 0 keeps nothing (`LfuCaches.LfuCache.GetOrInsert`).
- Write-back is offered over any cache; over ARC a read can lose a write, over LFU of capacity 0 every write is dropped, and over W-TinyLFU of capacity 2 a read can be stale (`WriteBackOverArc.RefinesIff`, `WriteBackOverLfu.RefinesIff`, `WriteBackOverTinyLfu.GetAnswersIff`).
- The byte budget counts entries the inner cache has dropped, and never recovers (`Bounded.CrowdReached`, `Bounded.CrowdedForGoodIff`).
- Compare-and-swap is documented as atomic; the removal of an expired key by a concurrent read can undo it, it succeeds although the value it read expired before its commit (`CompareAndSwap.AtomicIff`, `UnlockedWrites.LateRemovalBreaksAtomicity`, `UnlockedWrites.LateCommitBreaksAtomicity`), and writes without the lock can undo it (`UnlockedWrites.SwapAtomicIff`).
- `expire` and `persist` act on expired keys that are still stored (`TtlStore.AnswerAgreesIff`).
- A snapshot `prefix_scan` without an upper bound is commented as scanning everything; it scans nothing (`PrefixScan.SnapshotPrefixScanRightIff`).
- Pruning looks a column up among the leaves of the file and rows look it up among the top-level columns; a nested leaf of the same name makes matching rows disappear (`PredicateTables.PushdownIff`, `PredicateTables.NestedLeafLosesRow`).
- Float pruning treats nearly equal bounds as equal and ignores NaN (`Predicates.FloatPruneExact`).
- Very long times-to-live expire early (`Expiry.HonouredIff`).

## Model

| member | source | states |
|---|---|---|
| `Lru.AdjacentInclusion` | crates/oxistore-cache/src/lru.rs:50-88 | After any common run the cache of capacity c >= 1 has the recency list of capacity c + 1 with at most one key taken out, and equal entries. |
| `Lru.Inclusion` | crates/oxistore-cache/src/lru.rs:50-147 | For any capacities 1 <= c <= d and any common run of put, put_with_ttl, get, remove and clear, the smaller recency list is a subsequence of the larger one and entries agree. |
| `Lru.HitsIncluded` | crates/oxistore-cache/src/lru.rs:71-88 | Every hit of the smaller cache is a hit of the larger one with the same value. |
| `Lru.ZeroCapacityIsUnbounded` | crates/oxistore-cache/src/lru.rs:50-66 | In every run without resize at capacity 0, a put hands nothing back and loses no key. |
| `Lru.InclusionIff` | crates/oxistore-cache/src/lru.rs:50-147 | Inclusion of capacity c in capacity d over all runs without resize holds exactly when d is 0 or 1 <= c <= d. |
| `Lru.RecencyOrder` | crates/oxistore-cache/src/lru.rs:50-88 | In every run the list is ordered by last use, independently stamped, oldest first. |
| `Lru.EvictsLeastRecentlyUsed` | crates/oxistore-cache/src/lru.rs:55-64 | A put of a new key into a full cache removes exactly the key with the oldest last use and keeps all others. |
| `Lru.RunFresh` | crates/oxistore-cache/src/lru.rs:50-163 | In every run each cached entry is the last one written for its key. |
| `Lru.PutIsKept` | crates/oxistore-cache/src/lru.rs:50-66 | After a put the key holds the value just put, whatever was evicted for it. |
| `Lru.GetAnswers` | crates/oxistore-cache/src/lru.rs:71-88 | After every run a get answers v exactly when the key is cached with v and its deadline is not reached; so v is what was last written for it, and not overdue. |
| `Lru.InsertEntry` | crates/oxistore-cache/src/lru.rs:50-66 | Inserting keeps the list free of duplicates, in step with the entries and within the capacity. |
| `Lru.Resized` | crates/oxistore-cache/src/lru.rs:158-163 | Resizing keeps the same invariant for the new capacity. |
| `Lru.PopThenDrop` | crates/oxistore-cache/src/lru.rs:158-163 | Popping the front and then dropping n more is dropping n + 1: the resize loop step. |
| `LruCaches.LruCache.constructor` | crates/oxistore-cache/src/lru.rs:39-44 | A new object is the empty cache of the given capacity. |
| `LruCaches.LruCache.InsertEntry` | crates/oxistore-cache/src/lru.rs:50-66 | The object changes as the specified insertion and returns the evicted value. |
| `LruCaches.LruCache.Put` | crates/oxistore-cache/src/lru.rs:96-98 | The object takes the put step of the specification. |
| `LruCaches.LruCache.PutWithTtl` | crates/oxistore-cache/src/lru.rs:101-103 | The object takes the put_with_ttl step, with the deadline counted from the given clock reading. |
| `LruCaches.LruCache.Get` | crates/oxistore-cache/src/lru.rs:71-88 | The object takes the get step: hit promotes, expired entry is removed. |
| `LruCaches.LruCache.Remove` | crates/oxistore-cache/src/lru.rs:145-147 | The object takes the remove step and returns what was stored. |
| `LruCaches.LruCache.Resize` | crates/oxistore-cache/src/lru.rs:158-163 | The eviction loop reaches the specified contents: the oldest entries gone, the rest in order. |
| `LruCaches.LruCache.GetOrInsert` | crates/oxistore-cache/src/lib.rs:223-233 | The call panics exactly when a live entry reaches its deadline between the two clock readings; otherwise the result is the entry or the default. |
| `LruReference.RunSimulates` | crates/oxistore-cache/src/lru.rs:50-163 | In every run the recency list simulates a directory of last-use stamps that is searched for its oldest key. |
| `LruReference.RefinesReference` | crates/oxistore-cache/src/lru.rs:50-163 | After every run the next call, whatever it is, answers as the searching reference, and both hold the same entries. |
| `Caches.PeekServes` | crates/oxistore-cache/src/lru.rs:138-142 | A peek answers v exactly when the key is stored with v and its deadline is not reached. |
| `Lfu.RunInv` | crates/oxistore-cache/src/lfu.rs:68-171 | In every run without an unsafe resize, buckets and entries agree exactly, min_freq is a lower bound on all frequencies, len <= cap, and min_freq has a bucket whenever the cache is full. |
| `Lfu.IncrementInv` | crates/oxistore-cache/src/lfu.rs:68-94 | Raising a frequency keeps that invariant. |
| `Lfu.EvictInv` | crates/oxistore-cache/src/lfu.rs:97-106 | Evicting from a cache with a minimum bucket keeps buckets and entries in agreement. |
| `Lfu.EvictUnlinks` | crates/oxistore-cache/src/lfu.rs:97-106 | The key popped from the minimum bucket is the one that disappears from entries and buckets, and its value is returned. |
| `Lfu.InsertInv` | crates/oxistore-cache/src/lfu.rs:109-138 | Insertion keeps the invariant. |
| `Lfu.LookupInv` | crates/oxistore-cache/src/lfu.rs:144-171 | Lookup, including removal of an expired entry, keeps the invariant. |
| `Lfu.DeleteInv` | crates/oxistore-cache/src/lfu.rs:227-239 | Removal keeps the invariant although min_freq is left stale. |
| `Lfu.ResizeTerminatesIff` | crates/oxistore-cache/src/lfu.rs:252-257 | The resize loop ends exactly when the minimum bucket holds enough keys to reach the new capacity. |
| `Lfu.ResizeKeepsInvIff` | crates/oxistore-cache/src/lfu.rs:252-257 | A resize that ends keeps the invariant exactly when the minimum bucket outlives it. |
| `Lfu.ResizeLoopsForEver` | crates/oxistore-cache/src/lfu.rs:252-257 | A run of five puts and gets reaches a cache that no number of rounds of the loop brings down to capacity 1. |
| `Lfu.GrowingResizeIsSafe` | crates/oxistore-cache/src/lfu.rs:252-257 | A resize to the same or a larger capacity always ends and keeps the invariant. |
| `Lfu.RemovalLeavesStaleMinimum` | crates/oxistore-cache/src/lfu.rs:227-239 | A concrete run after which min_freq names no bucket. |
| `Lfu.OverfillsIff` | crates/oxistore-cache/src/lfu.rs:97-138 | After a resize that stops at a capacity of 1 or more, the put of a new key leaves one entry too many exactly when the resize emptied the minimum bucket. |
| `Lfu.StaleMinimumOverfills` | crates/oxistore-cache/src/lfu.rs:97-138 | Shrinking that cache to its length and putting a new key evicts nothing and exceeds the capacity. |
| `Lfu.RunFresh` | crates/oxistore-cache/src/lfu.rs:109-171 | In every such run each cached entry is the last one written for its key. |
| `Lfu.InsertFresh` | crates/oxistore-cache/src/lfu.rs:109-112 | A put keeps freshness unless the capacity is 0 and an older entry survived: then the old value stays. |
| `Lfu.PutIsKept` | crates/oxistore-cache/src/lfu.rs:109-138 | What was just put is there whenever the capacity is not 0; at capacity 0 it is handed back and nothing changes. |
| `Lfu.PeekServes` | crates/oxistore-cache/src/lfu.rs:205-215 | A peek answers v exactly when the key is stored with v and its deadline is not reached. |
| `LfuReference.VictimUnique` | crates/oxistore-cache/src/lfu.rs:97-106 | The key of least frequency and, among those, earliest arrival at it is unique. |
| `LfuReference.FrontIsVictim` | crates/oxistore-cache/src/lfu.rs:97-106 | The front of the minimum bucket is that key. |
| `LfuReference.RunSimulates` | crates/oxistore-cache/src/lfu.rs:68-171 | In every such run the bucket structure simulates a reference that stores frequencies and arrival stamps and searches for its victim. |
| `LfuReference.RefinesReference` | crates/oxistore-cache/src/lfu.rs:97-239 | The next call gives the same answer, evicted value and contents as the searching reference. |
| `LfuReference.EvictsLeastFrequentEarliest` | crates/oxistore-cache/src/lfu.rs:97-138 | A put of a new key into a full cache removes exactly the least frequent, earliest arrived key. |
| `LfuCaches.LfuCache.constructor` | crates/oxistore-cache/src/lfu.rs:54-61 | A new object is the empty cache. |
| `LfuCaches.LfuCache.IncrementFreq` | crates/oxistore-cache/src/lfu.rs:68-94 | In-place relinking of a key equals the specified increment. |
| `LfuCaches.LfuCache.Evict` | crates/oxistore-cache/src/lfu.rs:97-106 | In-place eviction equals the specified one. |
| `LfuCaches.LfuCache.InsertEntry` | crates/oxistore-cache/src/lfu.rs:109-138 | In-place insertion equals the specified one and keeps the invariant. |
| `LfuCaches.LfuCache.Put` | crates/oxistore-cache/src/lfu.rs:174-176 | The object takes the put step. |
| `LfuCaches.LfuCache.PutWithTtl` | crates/oxistore-cache/src/lfu.rs:179-181 | The object takes the put_with_ttl step. |
| `LfuCaches.LfuCache.Get` | crates/oxistore-cache/src/lfu.rs:144-171 | The object takes the get step. |
| `LfuCaches.LfuCache.Remove` | crates/oxistore-cache/src/lfu.rs:227-239 | The object takes the remove step. |
| `LfuCaches.LfuCache.Resize` | crates/oxistore-cache/src/lfu.rs:252-257 | Where the loop ends, it ends in the specified state. |
| `LfuCaches.LfuCache.GetOrInsert` | crates/oxistore-cache/src/lib.rs:223-233 | The call panics exactly when a live entry reaches its deadline between the two clock readings or, at capacity 0, when no live entry was found. |
| `Arc.Run` | crates/oxistore-cache/src/arc.rs:118-348 | In every run the four lists stay duplicate-free and pairwise disjoint and p <= cap. |
| `Arc.ReplaceMovesOne` | crates/oxistore-cache/src/arc.rs:118-144 | Replacing does nothing on an empty cache and otherwise moves exactly one live key to the ghost list of its side. |
| `Arc.ReplaceSide` | crates/oxistore-cache/src/arc.rs:118-144 | The victim comes from t1 exactly when t1 has reached its target or t2 is empty, and from t2 otherwise. |
| `Arc.PutAdapts` | crates/oxistore-cache/src/arc.rs:158-186 | A put of a ghost of t1 raises the target p, up to cap, by the stride that the lengths of the two ghost lists fix once the key has left its own, and one of a ghost of t2 lowers it, down to 0, by the stride with the lists exchanged; any other put leaves it. |
| `Arc.GetAdapts` | crates/oxistore-cache/src/arc.rs:247-265 | A get of a ghost moves the target the same way, with both lists at the length they have. |
| `Arc.StrideUnique` | crates/oxistore-cache/src/arc.rs:158-186 | The stride is fixed by multiplication: at least 1, and the largest d such that d times the length of the list hit is at most the other length. |
| `Arc.PutSide` | crates/oxistore-cache/src/arc.rs:147-220 | A key seen before, live or as a ghost, ends up newest in t2, any other newest in t1, with the entry just put. |
| `Arc.InsertValid` | crates/oxistore-cache/src/arc.rs:147-220 | Insertion keeps the directory; a cache with room grows by at most one and a full one grows exactly in the overflow branch. |
| `Arc.InsertWithinCapacityIff` | crates/oxistore-cache/src/arc.rs:199-206 | A put respects the capacity exactly when it is not a full miss of a full cache with t1 empty and |b1| = cap. |
| `Arc.CapacityOneGrowsWithoutBound` | crates/oxistore-cache/src/arc.rs:199-206 | For every n there is a run of puts and gets after which a cache of capacity 1 holds n live entries. |
| `Arc.DirectoryBoundIff` | crates/oxistore-cache/src/arc.rs:188-219 | A put leaves the directory within twice the capacity, if it was, except exactly for a new key that meets a full directory of which nothing is trimmed. |
| `Arc.DirectoryOutgrown` | crates/oxistore-cache/src/arc.rs:188-219 | Put, get, put, put at capacity 1 reaches such a directory and outgrows it. |
| `Arc.LookupValid` | crates/oxistore-cache/src/arc.rs:225-269 | Lookup keeps the directory. |
| `Arc.GhostLookupEvicts` | crates/oxistore-cache/src/arc.rs:248-265 | A lookup that hits a ghost is a miss that costs a non-empty cache one live entry. |
| `Arc.DeleteValid` | crates/oxistore-cache/src/arc.rs:311-322 | Removal keeps the directory. |
| `Arc.Resized` | crates/oxistore-cache/src/arc.rs:337-348 | Resizing ends with the directory intact and at most cap live entries. |
| `Arc.RunFresh` | crates/oxistore-cache/src/arc.rs:147-269 | In every run each live entry is the last one written for its key. |
| `Arc.PutIsKept` | crates/oxistore-cache/src/arc.rs:147-220 | What was just put is there, even when the put overflowed or revived a ghost. |
| `Arc.GetAnswers` | crates/oxistore-cache/src/arc.rs:225-269 | After every run a get answers v exactly when the key is live with v and its deadline is not reached; so v is what was last written for it, and not overdue. |
| `Arc.PeekServes` | crates/oxistore-cache/src/arc.rs:286-298 | A peek answers v exactly when the key is live with v and its deadline is not reached. |
| `ArcReference.RunSimulates` | crates/oxistore-cache/src/arc.rs:118-348 | In every run the four lists simulate one directory in which each key carries its shelf and the moment it came there, searched for the oldest of a shelf. |
| `ArcReference.RefinesReference` | crates/oxistore-cache/src/arc.rs:118-348 | After every run the next call answers as that directory, every key is in the list its shelf names with the same entry, and the targets are equal. |
| `ArcCaches.ArcCache.constructor` | crates/oxistore-cache/src/arc.rs:54-64 | A new object is the empty cache. |
| `ArcCaches.ArcCache.Replace` | crates/oxistore-cache/src/arc.rs:118-144 | In-place demotion equals the specified one. |
| `ArcCaches.ArcCache.AdmitMiss` | crates/oxistore-cache/src/arc.rs:188-219 | In-place admission of a key in no list equals the specified one. |
| `ArcCaches.ArcCache.InsertEntry` | crates/oxistore-cache/src/arc.rs:147-220 | In-place insertion equals the specified one. |
| `ArcCaches.ArcCache.Put` | crates/oxistore-cache/src/arc.rs:272-274 | The object takes the put step. |
| `ArcCaches.ArcCache.Get` | crates/oxistore-cache/src/arc.rs:225-269 | The object takes the get step, ghost hits included. |
| `ArcCaches.ArcCache.Remove` | crates/oxistore-cache/src/arc.rs:311-322 | The object takes the remove step. |
| `ArcCaches.ArcCache.Resize` | crates/oxistore-cache/src/arc.rs:337-348 | The demotion loop ends in the specified state, with at most the new capacity live. |
| `ArcCaches.ArcCache.GetOrInsert` | crates/oxistore-cache/src/lib.rs:223-233 | The call panics exactly when a live entry reaches its deadline between the two clock readings. |
| `Sketch.NeverUnderestimates` | crates/oxistore-cache/src/sketch.rs:127-171 | For every run of increments and agings, the estimate of a key is at least its own saturating, halved counter and at most 15. |
| `Sketch.EstimateExact` | crates/oxistore-cache/src/sketch.rs:127-171 | It is that counter exactly if in some row no other key of the run shares its column. |
| `Sketch.WidthIsLeastPower` | crates/oxistore-cache/src/sketch.rs:113 | The width is the least power of two that the capacity fits into. |
| `Sketch.RowColIsDoubleHashing` | crates/oxistore-cache/src/sketch.rs:53-55 | Where the width divides 2^64 the wrapping does not show: successive rows are one stride apart. |
| `Sketch.IncrementExact` | crates/oxistore-cache/src/sketch.rs:127-140 | An increment raises the key in each row, saturating at 15, and no other counter; the addition that completes the sample then halves them all. |
| `Sketch.SetBitsSets` | crates/oxistore-cache/src/sketch.rs:221-234 | Doorkeeper positions are only ever added, and a key sets all of its own. |
| `Sketch.FrequencyAtLeast` | crates/oxistore-cache/src/tinylfu.rs:179-191 | After any recorded accesses, through any agings, the estimate of a key is at least a counter raised by every access but the first and halved by every aging. |
| `Sketch.FrequencyExact` | crates/oxistore-cache/src/tinylfu.rs:179-191 | It is that counter exactly if no other key accessed shares the column of some row or one of the doorkeeper positions. |
| `Sketch.ExpectedBeforeAging` | crates/oxistore-cache/src/tinylfu.rs:179-191 | Until the first aging that counter is min(15, n - 1) after n accesses. |
| `Sketch.ShortRunsNeverAge` | crates/oxistore-cache/src/sketch.rs:127-140 | Fewer accesses than ten for each unit of capacity cause no aging. |
| `Sketch.Record` | crates/oxistore-cache/src/tinylfu.rs:179-185 | Recording keeps both tables well formed. |
| `Sketch.IndexInRangeIff` | crates/oxistore-cache/src/sketch.rs:112-123 | Every counter has its byte inside the table exactly from capacity 2 on. |
| `Sketch.Cleared` | crates/oxistore-cache/src/sketch.rs:174-179 | Clearing leaves both tables zero and of the same size. |
| `Sketch.ClearedIsNew` | crates/oxistore-cache/src/sketch.rs:174-179 | After any accesses clearing gives back the new tables. |
| `SketchTables.Injective` | crates/oxistore-cache/src/sketch.rs:66-83 | Two counters share a byte and a half of it only if they are the same counter. |
| `SketchTables.WriteCell` | crates/oxistore-cache/src/sketch.rs:77-83 | Writing one nibble of the byte array changes one counter of the grid and no other. |
| `SketchTables.HalveCells` | crates/oxistore-cache/src/sketch.rs:161-171 | The byte-wise shift and mask halves every packed counter. |
| `SketchTables.WithBitReads` | crates/oxistore-cache/src/sketch.rs:221-234 | Setting a bit of a 64-bit word sets that bit. |
| `SketchTables.WriteBit` | crates/oxistore-cache/src/sketch.rs:221-234 | Setting a bit of the word array sets one doorkeeper position and no other. |
| `SketchTables.CountMinSketch.constructor` | crates/oxistore-cache/src/sketch.rs:112-123 | A new byte table is the zero grid. |
| `SketchTables.CountMinSketch.NibbleGet` | crates/oxistore-cache/src/sketch.rs:66-73 | Reading a nibble gives the counter of the grid. |
| `SketchTables.CountMinSketch.NibbleSet` | crates/oxistore-cache/src/sketch.rs:77-83 | Writing a nibble is the grid update. |
| `SketchTables.CountMinSketch.Increment` | crates/oxistore-cache/src/sketch.rs:127-140 | The loop over packed rows is the specified increment. |
| `SketchTables.CountMinSketch.Estimate` | crates/oxistore-cache/src/sketch.rs:144-155 | The loop over packed rows finds the specified minimum. |
| `SketchTables.CountMinSketch.Age` | crates/oxistore-cache/src/sketch.rs:161-171 | The loop over bytes is the specified aging. |
| `SketchTables.Doorkeeper.constructor` | crates/oxistore-cache/src/sketch.rs:206-213 | A new filter has no position set. |
| `SketchTables.Doorkeeper.Put` | crates/oxistore-cache/src/sketch.rs:221-234 | Reports whether all positions were set before the call, and sets them. |
| `TinyLfu.Run` | crates/oxistore-cache/src/tinylfu.rs:342-528 | In every run, for every hash function, the index is the disjoint union of the three segments, and window, protected and main stay within their caps. |
| `TinyLfu.RunWithinCapacity` | crates/oxistore-cache/src/tinylfu.rs:342-528 | In every run at most total_cap keys are cached. |
| `TinyLfu.GateHasVictim` | crates/oxistore-cache/src/tinylfu.rs:295-336 | A full main space always has a probation key: the arm for an empty probation segment is never taken. |
| `TinyLfu.GateFavoursFrequent` | crates/oxistore-cache/src/tinylfu.rs:295-336 | At a full main space exactly one of candidate and victim survives, never the one with the lower estimate, and nobody else is touched. |
| `TinyLfu.PromoteValid` | crates/oxistore-cache/src/tinylfu.rs:259-274 | Promotion from probation, with demotion of the oldest protected key, keeps the structure. |
| `TinyLfu.PromoteExact` | crates/oxistore-cache/src/tinylfu.rs:259-274 | Promotion loses no key: the key joins the back of the protected segment, and only if that overflows does the oldest protected key join the back of probation. |
| `TinyLfu.InsertValid` | crates/oxistore-cache/src/tinylfu.rs:342-385 | Insertion keeps the structure. |
| `TinyLfu.LookupValid` | crates/oxistore-cache/src/tinylfu.rs:394-418 | Lookup keeps the structure. |
| `TinyLfu.HitIff` | crates/oxistore-cache/src/tinylfu.rs:394-418 | A live key is found exactly when it is not in probation or the protected segment has room: at capacity 2 a probation key is always missed. |
| `TinyLfu.ProbationAtCapacityTwo` | crates/oxistore-cache/src/tinylfu.rs:394-418 | Two puts at capacity 2 reach a live probation key that get misses. |
| `TinyLfu.Resized` | crates/oxistore-cache/src/tinylfu.rs:505-528 | Resizing ends for every cache and capacity and restores all caps. |
| `TinyLfu.ResizeKeepsNewest` | crates/oxistore-cache/src/tinylfu.rs:505-528 | Each segment keeps exactly its newest keys, as many as its new cap allows, with their entries. |
| `TinyLfu.GrowthKeepsAll` | crates/oxistore-cache/src/tinylfu.rs:505-528 | A resize to the same or a larger capacity loses nothing. |
| `TinyLfu.RunFresh` | crates/oxistore-cache/src/tinylfu.rs:342-528 | In every run each cached entry is the last one written for its key. |
| `TinyLfu.PutIsKept` | crates/oxistore-cache/src/tinylfu.rs:342-385 | What was just put is there: the gate never rejects the key being inserted. |
| `TinyLfu.GetAnswers` | crates/oxistore-cache/src/tinylfu.rs:394-418 | After every run a get answers v exactly when the key is cached with v, its deadline is not reached and it is not a probation key at capacity 2; so v is what was last written for it, and not overdue. |
| `TinyLfu.PeekServes` | crates/oxistore-cache/src/tinylfu.rs:452-465 | A peek answers v exactly when the key is cached with v and its deadline is not reached. |
| `TinyLfuReference.RunSimulates` | crates/oxistore-cache/src/tinylfu.rs:179-528 | In every run, for every hash function, the cache simulates one directory of segments and moments that takes its estimates from the list of all accesses. |
| `TinyLfuReference.RefinesReference` | crates/oxistore-cache/src/tinylfu.rs:179-528 | After every run the next call answers as that directory, every key is in the segment it names with the same entry, and the tables are those of the accesses listed. |
| `TinyLfuReference.TablesAreAccesses` | crates/oxistore-cache/src/tinylfu.rs:342-418 | After every run the tables are those of the accesses since the last clear: every put and every get of a key that was live, in order. |
| `TinyLfuReference.PutAdmitsFrequent` | crates/oxistore-cache/src/tinylfu.rs:295-336 | After every run, a put of a new key into a full cache keeps exactly one of the oldest window key and the oldest probation key, never the one with the lower estimate of those accesses, and each estimate is at least the counter of FrequencyAtLeast. |
| `TinyLfuCaches.WTinyLfuCache.constructor` | crates/oxistore-cache/src/tinylfu.rs:152-172 | A new object over packed tables is the empty cache. |
| `TinyLfuCaches.WTinyLfuCache.RecordAccess` | crates/oxistore-cache/src/tinylfu.rs:179-185 | Recording through the packed tables is the specified one. |
| `TinyLfuCaches.WTinyLfuCache.Freq` | crates/oxistore-cache/src/tinylfu.rs:188-191 | The frequency read from the packed tables is the specified one. |
| `TinyLfuCaches.WTinyLfuCache.Promote` | crates/oxistore-cache/src/tinylfu.rs:259-274 | In-place promotion equals the specified one. |
| `TinyLfuCaches.WTinyLfuCache.Decide` | crates/oxistore-cache/src/tinylfu.rs:313-323 | The duel and the generator advance as specified. |
| `TinyLfuCaches.WTinyLfuCache.RunAdmissionGate` | crates/oxistore-cache/src/tinylfu.rs:295-336 | The in-place gate equals the specified one. |
| `TinyLfuCaches.WTinyLfuCache.InsertEntry` | crates/oxistore-cache/src/tinylfu.rs:342-385 | In-place insertion equals the specified one and keeps the structure. |
| `TinyLfuCaches.WTinyLfuCache.Get` | crates/oxistore-cache/src/tinylfu.rs:394-418 | The object takes the get step. |
| `TinyLfuCaches.WTinyLfuCache.Remove` | crates/oxistore-cache/src/tinylfu.rs:482-490 | The object takes the remove step. |
| `TinyLfuCaches.WTinyLfuCache.Resize` | crates/oxistore-cache/src/tinylfu.rs:505-528 | The three loops end in the specified state. |
| `TinyLfuCaches.WTinyLfuCache.GetOrInsert` | crates/oxistore-cache/src/lib.rs:223-233 | The call panics exactly when a live entry reaches its deadline between the two clock readings. |
| `WriteBack.GetReturnsLastWrite` | crates/oxistore-cache/src/write_adapter.rs:168-201 | From an empty LRU cache of any capacity over any store, after any run of put, get, remove and flush, a get returns the last written value, evicted or not. |
| `WriteBack.FlushPersistsEverything` | crates/oxistore-cache/src/write_adapter.rs:203-214 | After a flush the store is the specification map and no key is dirty. |
| `WriteBack.StoreIsPersisted` | crates/oxistore-cache/src/write_adapter.rs:168-246 | In every run the store holds the specification map as of the last flush, explicit or forced by an eviction that was due, and every key removed since is gone from it. |
| `WriteBack.DirtyIsCached` | crates/oxistore-cache/src/write_adapter.rs:168-246 | In every run a value the store does not have yet is in the cache and marked. |
| `WriteBack.RunRefines` | crates/oxistore-cache/src/write_adapter.rs:168-246 | In every run cache and store merged are the specification map. |
| `WriteBack.PutRefines` | crates/oxistore-cache/src/write_adapter.rs:179-246 | Whatever a cache evicts, a put that flushed first is a map update. |
| `WriteBack.LossUnnoticedIff` | crates/oxistore-cache/src/write_adapter.rs:220-246 | Losing a cached value goes unnoticed exactly when the store already has it. |
| `WriteBack.FlushOneMore` | crates/oxistore-cache/src/write_adapter.rs:203-214 | The flush loop, one key at a time. |
| `WriteBackCaches.WriteBackCache.constructor` | crates/oxistore-cache/src/write_adapter.rs:140-146 | A new adapter is clean over the given cache and store. |
| `WriteBackCaches.WriteBackCache.Get` | crates/oxistore-cache/src/write_adapter.rs:168-175 | A hit comes from the cache, a miss from the store and does not populate the cache. |
| `WriteBackCaches.WriteBackCache.Put` | crates/oxistore-cache/src/write_adapter.rs:179-187 | The object takes the specified put, flushing first when an eviction is due. |
| `WriteBackCaches.WriteBackCache.Remove` | crates/oxistore-cache/src/write_adapter.rs:190-196 | The object takes the specified remove. |
| `WriteBackCaches.WriteBackCache.FlushDirty` | crates/oxistore-cache/src/write_adapter.rs:235-241 | The loop writes every dirty value that is still cached. |
| `WriteBackCaches.WriteBackCache.Flush` | crates/oxistore-cache/src/write_adapter.rs:203-214 | The object takes the specified flush. |
| `WriteBackOverArc.GhostGetKeepsWritesIff` | crates/oxistore-cache/src/arc.rs:248-265 | Over an ARC cache, a get that hits a ghost of either list keeps what readers see exactly when the victim of its eviction is in the store with its current value. |
| `WriteBackOverArc.ArcStepIff` | crates/oxistore-cache/src/write_adapter.rs:168-246 | Every call acts as on a plain map exactly when it is not a get that loses a write. |
| `WriteBackOverArc.RefinesIff` | crates/oxistore-cache/src/write_adapter.rs:168-246 | Along a whole run over ARC the adapter shows the specification map if and only if no get of the run hits a ghost whose victim is unflushed. |
| `WriteBackOverArc.GetAnswers` | crates/oxistore-cache/src/write_adapter.rs:168-175 | While nothing is lost every get answers the last written value. |
| `WriteBackOverArc.WriteIsLost` | crates/oxistore-cache/src/write_adapter.rs:168-187 | A run of two puts and one get over capacity 1 after which a written value is in neither cache nor store. |
| `WriteBackOverLfu.RefinesIff` | crates/oxistore-cache/src/write_adapter.rs:168-246 | Along a whole run over LFU the adapter shows the specification map if and only if no put of a new value meets capacity 0. |
| `WriteBackOverLfu.CapacityOneSuffices` | crates/oxistore-cache/src/write_adapter.rs:168-246 | From capacity 1 on no put is dropped and every run refines the map. |
| `WriteBackOverLfu.GetAnswers` | crates/oxistore-cache/src/write_adapter.rs:168-175 | While nothing is dropped every get answers the last written value. |
| `WriteBackOverLfu.PutIsDropped` | crates/oxistore-cache/src/write_adapter.rs:179-187 | At capacity 0 a single put of a key the store does not have is lost. |
| `WriteBackOverTinyLfu.RunRefines` | crates/oxistore-cache/src/write_adapter.rs:168-246 | In every run over W-TinyLFU, at every capacity, cache and store together are the specification map. |
| `WriteBackOverTinyLfu.GetAnswersIff` | crates/oxistore-cache/src/write_adapter.rs:168-175 | A get answers the last written value if and only if the key is not an unflushed probation key of a cache of capacity 2. |
| `WriteBackOverTinyLfu.CapacityThreeSuffices` | crates/oxistore-cache/src/write_adapter.rs:168-175 | From capacity 3 on every get answers the last written value. |
| `WriteBackOverTinyLfu.StaleAnswer` | crates/oxistore-cache/src/write_adapter.rs:168-175 | Two puts and a get at capacity 2: the value is in the cache and the get answers none. |
| `Bounded.Run` | crates/oxistore-cache/src/bounded.rs:59-143 | In every run the inner keys are among the tracked ones and the real bytes never exceed current_bytes. |
| `Bounded.PutKeeps` | crates/oxistore-cache/src/bounded.rs:81-118 | One put keeps that, with the exact number of bytes overcounted. |
| `Bounded.PutWithinBudgetIff` | crates/oxistore-cache/src/bounded.rs:81-118 | The real contents fit the budget after a put exactly when the new entry alone fits it. |
| `Bounded.RunWithinBudget` | crates/oxistore-cache/src/bounded.rs:59-143 | If every inserted entry fits the budget alone, the bytes really held never exceed it, over an inner LRU that evicts silently and expires entries. |
| `Bounded.EvictionEmptiesIff` | crates/oxistore-cache/src/bounded.rs:59-70 | Making room empties the cache exactly when it holds nothing, or when the bytes overcounted, the last entry to go and the room needed exceed the budget together. |
| `Bounded.CrowdedPut` | crates/oxistore-cache/src/bounded.rs:81-118 | A put leaves only its own entry once the overcount and the entry exceed the budget. |
| `Bounded.CrowdedForGoodIff` | crates/oxistore-cache/src/bounded.rs:59-143 | A cache of at most one entry is confined to one, until a clear, exactly when the whole budget is overcounted. |
| `Bounded.CrowdedForGood` | crates/oxistore-cache/src/bounded.rs:59-143 | The overcount never heals: from then on, until a clear, the cache holds at most one entry. |
| `Bounded.CrowdReached` | crates/oxistore-cache/src/bounded.rs:77-118 | Two calls on a new cache of any capacity and budget reach that state. |
| `Bounded.RemoveKeeps` | crates/oxistore-cache/src/bounded.rs:128-137 | Removal keeps the invariant. |
| `BoundedOrder.StepExactIff` | crates/oxistore-cache/src/bounded.rs:59-143 | While the list holds each cached key once and the count is exact, a call leaves it so exactly when the inner cache meets no expired entry, has room for a new key and is not made smaller than its contents. |
| `BoundedOrder.RunExact` | crates/oxistore-cache/src/bounded.rs:59-143 | As long as that holds along a run, the count is the bytes held and the list is in the order of the last puts. |
| `BoundedOrder.EvictsOldest` | crates/oxistore-cache/src/bounded.rs:59-70 | Room is made by removing the oldest keys of the list, as many as it takes and no more. |
| `BoundedCaches.BoundedCache.constructor` | crates/oxistore-cache/src/bounded.rs:36-43 | A new wrapper counts nothing. |
| `BoundedCaches.BoundedCache.EvictUntilFits` | crates/oxistore-cache/src/bounded.rs:59-70 | The loop ends in the specified state. |
| `BoundedCaches.BoundedCache.Insert` | crates/oxistore-cache/src/bounded.rs:81-98 | The object takes the specified put and returns what the inner cache evicts after room was made. |
| `BoundedCaches.BoundedCache.Put` | crates/oxistore-cache/src/bounded.rs:81-98 | After a put the bytes held fit the budget exactly if the entry itself does; the result is what the inner cache evicts. |
| `BoundedCaches.BoundedCache.Get` | crates/oxistore-cache/src/bounded.rs:77-79 | The object takes the inner get and leaves the count alone. |
| `BoundedCaches.BoundedCache.Remove` | crates/oxistore-cache/src/bounded.rs:128-137 | The object takes the specified remove. |
| `PrefixScan.NoBoundIff` | crates/oxistore-core/src/lib.rs:109-128 | There is no upper bound exactly for the empty and the all-0xFF prefixes. |
| `PrefixScan.RangeIsPrefix` | crates/oxistore-core/src/lib.rs:109-128 | When there is a bound u, p <= k < u holds exactly when k starts with p. |
| `PrefixScan.PrefixUpperBound` | crates/oxistore-core/src/lib.rs:109-128 | The popping loop computes the bound. |
| `PrefixScan.AboveAllFF` | crates/oxistore-core/src/lib.rs:244-265 | At or above an all-0xFF prefix means starting with it. |
| `PrefixScan.FilterPrefix` | crates/oxistore-core/src/lib.rs:244-265 | The filtering arm lists exactly the pairs with the prefix. |
| `PrefixScan.PrefixScan` | crates/oxistore-core/src/lib.rs:244-265 | For every store contents and prefix, the default scan lists exactly the pairs with the prefix, in key order. |
| `PrefixScan.SnapshotPrefixScanRightIff` | crates/oxistore-core/src/lib.rs:501-509 | The snapshot variant is right exactly when the prefix has a bound or no key starts with it. |
| `Expiry.HonouredIff` | crates/oxistore-core/src/lib.rs:138-156 | A time-to-live is honoured to the millisecond exactly when its deadline can be counted in 64 bits of milliseconds. |
| `Expiry.HonouredInNanos` | crates/oxistore-core/src/lib.rs:138-156 | A key is never served past its deadline and expires less than a millisecond before it. |
| `Expiry.OverlongTtlExpiresAtOnce` | crates/oxistore-core/src/lib.rs:138-143 | A time-to-live beyond the range of durations makes the key expire at once. |
| `LittleEndian.DecodeEncode` | crates/oxistore-kv-fjall/src/store.rs:38-45 | Decoding an encoded number of the width gives it back. |
| `LittleEndian.EncodeDecode` | crates/oxistore-kv-fjall/src/store.rs:38-45 | Encoding what a byte string decodes to gives the string back. |
| `TtlStore.StepRefines` | crates/oxistore-kv-fjall/src/store.rs:511-827 | Each operation of the lazily evicting store answers and behaves as on a store that removes every key the moment it expires, unless it revives an expired key. |
| `TtlStore.RevivalIsSeen` | crates/oxistore-kv-fjall/src/store.rs:720-733 | When expire or persist meets an expired key still stored, the answer differs from the eager store, and persist makes the old value visible again. |
| `TtlStore.AnswerAgreesIff` | crates/oxistore-kv-fjall/src/store.rs:720-793 | The two answers agree exactly when the operation does not revive an expired key. |
| `TtlStore.RunRefines` | crates/oxistore-kv-fjall/src/store.rs:511-972 | After any run of all operations and transaction commits, under a clock that does not go back and without revivals, the lazy store cannot be told from the eager one, now or later. |
| `TtlStore.RunAgreesIff` | crates/oxistore-kv-fjall/src/store.rs:511-972 | All answers of a run are those of the eager store exactly when no operation of it revives an expired key. |
| `TtlStore.RevivalReached` | crates/oxistore-kv-fjall/src/store.rs:707-793 | From an empty store: a key put with an expiry and persisted after it is shown again, for good. |
| `TtlStore.AnswersRefine` | crates/oxistore-kv-fjall/src/store.rs:511-972 | Every answer of such a run, key listings included, is the eager answer. |
| `TtlStore.QueryRefines` | crates/oxistore-kv-fjall/src/store.rs:558-666 | Range, prefix scan, iteration, key listing and count over the raw keyspace are those of the eager store. |
| `TtlStore.EraseUnseen` | crates/oxistore-kv-fjall/src/store.rs:511-535 | Removing keys that no reader can see any more changes nothing, now or at any later time. |
| `TtlStore.RunCoupled` | crates/oxistore-kv-fjall/src/store.rs:537-972 | In every run, commits included, an expiry exists only for a stored key. |
| `TtlStore.PurgeExact` | crates/oxistore-kv-fjall/src/store.rs:795-827 | Purging leaves exactly the visible keys stored and reports how many went. |
| `TtlStore.PurgeTwice` | crates/oxistore-kv-fjall/src/store.rs:795-827 | A second purge at the same time finds nothing. |
| `Transactions.CommitIsOverlay` | crates/oxistore-kv-fjall/src/store.rs:902-972 | After any staged puts and deletes, committing the ordered batch writes exactly what the overlay shows, whatever the store holds by then. |
| `Transactions.CommitView` | crates/oxistore-kv-fjall/src/store.rs:966-972 | The view after a commit at any time is the overlay on the view before it. |
| `Transactions.CommitIsEach` | crates/oxistore-kv-fjall/src/store.rs:966-972 | Committing is doing the staged writes one after the other. |
| `Transactions.ReadYourWrites` | crates/oxistore-kv-fjall/src/store.rs:884-900 | A get inside the transaction is a get of the store as if the transaction had just committed. |
| `Transactions.RangeReadYourWrites` | crates/oxistore-kv-fjall/src/store.rs:931-964 | A range read panics exactly for a range upside down after at least one write; otherwise it lists the range of the store as if the transaction had just committed. |
| `FjallStores.EncodeExpiry` | crates/oxistore-kv-fjall/src/store.rs:38-45 | What is written as an expiry decodes to the same milliseconds. |
| `FjallStores.WritingBatch` | crates/oxistore-kv-fjall/src/store.rs:591-600 | The batch built by the loop writes the pairs in order and clears their expiries. |
| `FjallStores.RemovalBatch` | crates/oxistore-kv-fjall/src/store.rs:602-609 | The batch built by the loop removes the keys from both keyspaces. |
| `FjallStores.FjallStore.IsTtlExpired` | crates/oxistore-kv-fjall/src/store.rs:423-435 | Decoding the stored bytes gives the specified expiry test. |
| `FjallStores.FjallStore.CommitBatch` | crates/oxistore-kv-fjall/src/store.rs:591-600 | Applying a batch entry by entry is the specified commit. |
| `FjallStores.FjallStore.Get` | crates/oxistore-kv-fjall/src/store.rs:511-535 | The object takes the get step: an expired key is removed from both keyspaces and not served. |
| `FjallStores.FjallStore.Put` | crates/oxistore-kv-fjall/src/store.rs:537-546 | The object takes the put step, which clears a stale expiry. |
| `FjallStores.FjallStore.Delete` | crates/oxistore-kv-fjall/src/store.rs:548-556 | The object takes the delete step. |
| `FjallStores.FjallStore.Scan` | crates/oxistore-kv-fjall/src/store.rs:558-573 | The loop that skips expired keys lists exactly the unexpired pairs, in key order. |
| `FjallStores.FjallStore.Range` | crates/oxistore-kv-fjall/src/store.rs:558-573 | The range of the view, in key order. |
| `FjallStores.FjallStore.Prefix` | crates/oxistore-kv-fjall/src/store.rs:575-589 | The pairs of the view with the prefix, in key order. |
| `FjallStores.FjallStore.BatchWrite` | crates/oxistore-kv-fjall/src/store.rs:591-600 | The object takes the batch write step. |
| `FjallStores.FjallStore.BatchDelete` | crates/oxistore-kv-fjall/src/store.rs:602-609 | The object takes the batch delete step. |
| `FjallStores.FjallStore.Count` | crates/oxistore-kv-fjall/src/store.rs:611-629 | The counting loop gives the number of visible keys. |
| `FjallStores.FjallStore.Iter` | crates/oxistore-kv-fjall/src/store.rs:635-648 | All visible pairs in key order. |
| `FjallStores.FjallStore.Keys` | crates/oxistore-kv-fjall/src/store.rs:650-666 | All visible keys in order. |
| `FjallStores.FjallStore.PutWithTtl` | crates/oxistore-kv-fjall/src/store.rs:707-718 | The object takes the put_with_ttl step. |
| `FjallStores.FjallStore.Expire` | crates/oxistore-kv-fjall/src/store.rs:720-733 | The object takes the expire step; not found exactly for a key not stored. |
| `FjallStores.FjallStore.Ttl` | crates/oxistore-kv-fjall/src/store.rs:735-771 | The object takes the ttl step, eviction included. |
| `FjallStores.FjallStore.Persist` | crates/oxistore-kv-fjall/src/store.rs:773-793 | The object takes the persist step. |
| `FjallStores.FjallStore.PurgeExpired` | crates/oxistore-kv-fjall/src/store.rs:795-827 | The object takes the purge step and reports the number of keys removed. |
| `FjallTransactions.ApplyOverlay` | crates/oxistore-kv-fjall/src/store.rs:949-959 | Merging the overlay key by key gives the overlaid map. |
| `FjallTransactions.FjallTxn.constructor` | crates/oxistore-kv-fjall/src/store.rs:668-679 | A new transaction has no writes. |
| `FjallTransactions.FjallTxn.Get` | crates/oxistore-kv-fjall/src/store.rs:884-900 | A read gives what the store would show had the transaction just committed. |
| `FjallTransactions.FjallTxn.Put` | crates/oxistore-kv-fjall/src/store.rs:902-914 | Batch and overlay stay in step: one more staged put. |
| `FjallTransactions.FjallTxn.Delete` | crates/oxistore-kv-fjall/src/store.rs:916-925 | Batch and overlay stay in step: one more staged delete. |
| `FjallTransactions.FjallTxn.Range` | crates/oxistore-kv-fjall/src/store.rs:931-964 | The two loops list the range the store would show had the transaction just committed; the panic happens exactly for a range upside down after at least one write. |
| `FjallTransactions.FjallTxn.CommitTxn` | crates/oxistore-kv-fjall/src/store.rs:966-972 | The store afterwards is the store as it was with the staged writes done in order. |
| `FjallTransactions.FjallTxn.Rollback` | crates/oxistore-kv-fjall/src/store.rs:974-978 | The transaction is consumed and the store untouched. |
| `FjallTransactions.FjallSnap.constructor` | crates/oxistore-kv-fjall/src/store.rs:681-688 | A snapshot holds both keyspaces as they were and the capture time. |
| `FjallTransactions.FjallSnap.Get` | crates/oxistore-kv-fjall/src/store.rs:1020-1028 | The value visible at capture, whatever is written or expires later. |
| `FjallTransactions.FjallSnap.Range` | crates/oxistore-kv-fjall/src/store.rs:1040-1055 | The range visible at capture, in key order. |
| `CompareAndSwap.CompareAndSwap` | crates/oxistore-core/src/lib.rs:335-356 | One call succeeds exactly when the visible value is the expected one, then writes the new value without an expiry; otherwise nothing changes. |
| `CompareAndSwap.AtomicIff` | crates/oxistore-core/src/lib.rs:335-356 | In every interleaving of swaps, other transactions under the lock and lock-free readers that test a key and remove it later, all answers and views along the run are those of the logged calls done one at a time, a successful swap at its commit and a failed one at its read, if and only if no removal lands on a key put since its test and no swap commits after the deadline of the value it read. |
| `CompareAndSwap.CasIsAtomic` | crates/oxistore-core/src/lib.rs:335-356 | In a run of such timely removals and commits the calls take effect in the order of their commits, and the store shows what that order leaves. |
| `CompareAndSwap.CommitsOnExpectedIff` | crates/oxistore-core/src/lib.rs:341-350 | A swap that found what it expected commits on a store that still shows it exactly if it commits before the deadline of the value it read. |
| `CompareAndSwap.LateCommitShows` | crates/oxistore-core/src/lib.rs:341-350 | A swap that commits after that deadline reports what no atomic swap at its commit would. |
| `CompareAndSwap.ActInv` | crates/oxistore-kv-fjall/src/store.rs:668-679 | Every single action, timely removals and commits included, keeps the invariant behind that. |
| `CompareAndSwap.UntimelyShows` | crates/oxistore-kv-fjall/src/store.rs:511-535 | A removal of a key put since its test makes the store differ from the log at once. |
| `CompareAndSwap.NoDoubleSwap` | crates/oxistore-core/src/lib.rs:335-356 | After a swap the next call on the key succeeds exactly if it expects the value just written. |
| `CompareAndSwap.LockIsExclusive` | crates/oxistore-kv-fjall/src/store.rs:668-679 | While the lock is held only its holder does anything under it; the log grows only when a holder ends, and the store changes only then or by the removal of a tested key. |
| `UnlockedWrites.LateRemovalBreaksAtomicity` | crates/oxistore-kv-fjall/src/store.rs:511-535 | For every store with an expired key: a reader tests it, a swap writes it, the removal lands; the swap reported success, its value is gone, and the next swap gets an answer no order explains. |
| `UnlockedWrites.LateCommitBreaksAtomicity` | crates/oxistore-kv-fjall/src/store.rs:884-900 | For every store with a key that has a deadline: a swap reads it before and commits after; every reader found the key gone, yet the swap reports success and writes. |
| `UnlockedWrites.ReadSurvivesIff` | crates/oxistore-kv-fjall/src/store.rs:537-827 | For every operation without the lock between a read and a later commit: the value read is still what a reader finds exactly in the listed cases. |
| `UnlockedWrites.ReadSurvivesRunIff` | crates/oxistore-kv-fjall/src/store.rs:511-827 | For any number of operations in between: exactly if the history of that one key, whatever happens to the others, leaves the value read. |
| `UnlockedWrites.NextIs` | crates/oxistore-kv-fjall/src/store.rs:511-827 | What any operation does to the two keyspaces under one key depends on what they hold under that key alone. |
| `UnlockedWrites.SwapAtomicIff` | crates/oxistore-core/src/lib.rs:335-356 | A swap with any operations between its read and its commit gives the answer and leaves the store of an atomic one at its commit exactly if what it read and what the history of the key leaves are both what it expects, or neither is. |
| `UnlockedWrites.PlainPutIsLost` | crates/oxistore-kv-fjall/src/store.rs:537-546 | A put that takes no lock, between the read and the commit, is overwritten while the caller is told the swap succeeded. |
| `UnlockedWrites.RemovalErasesFreshPut` | crates/oxistore-kv-fjall/src/store.rs:511-535 | A value put between the test and the removal of get is erased. |
| `Predicates.PruneSound` | crates/oxistore-columnar/src/predicate.rs:163-173 | For every And/Or/Not/Cmp tree whose columns are looked up at their own leaves, a row group ruled out by honest statistics holds no row that evaluates to true. |
| `Predicates.CmpSoundIff` | crates/oxistore-columnar/src/predicate.rs:318-349 | A comparison never rules out a matching row, on any honest row group, exactly when the first leaf with the name of its column is that column, or is missing, or is of another physical kind, or the comparison cannot mislead. |
| `Predicates.SchemaPrunesIff` | crates/oxistore-columnar/src/predicate.rs:163-349 | A file prunes soundly for every predicate that fits its schema exactly when no comparable column is shadowed by an earlier leaf of its name and kind. |
| `Predicates.LeafSound` | crates/oxistore-columnar/src/predicate.rs:352-399 | A comparison ruled out by statistics holds of no value within them. |
| `Predicates.IntExact` | crates/oxistore-columnar/src/predicate.rs:427-447 | Integer pruning keeps a group exactly when some value within the bounds would match, or when Ne finds only the scalar but nulls may be stored. |
| `Predicates.BoolSound` | crates/oxistore-columnar/src/predicate.rs:406-422 | Boolean pruning rules out only what no value within the bounds satisfies. |
| `Predicates.BytesSound` | crates/oxistore-columnar/src/predicate.rs:491-512 | Byte string pruning rules out only what no string within the bounds satisfies. |
| `Predicates.FloatPruneExact` | crates/oxistore-columnar/src/predicate.rs:452-488 | A pruned float comparison holds of no stored float exactly when Ne has both bounds equal to the scalar and Ne, Gt and Ge meet no NaN. |
| `Predicates.AnyOfTrue` | crates/oxistore-columnar/src/predicate.rs:137-144 | A disjunction is true when some part is true and no part is null, and null when any part is. |
| `Predicates.AllOfTrue` | crates/oxistore-columnar/src/predicate.rs:129-136 | A conjunction is true exactly when every part is, and null exactly when some part is. |
| `Predicates.EvalIs` | crates/oxistore-columnar/src/predicate.rs:115-150 | A predicate that fits is null of a row exactly when a column it compares is null there, and otherwise its truth in two-valued logic, comparisons being judged by the side of the scalar on which the value lies. |
| `Predicates.NegationFlips` | crates/oxistore-columnar/src/predicate.rs:145-150 | Of every row a predicate and its negation are one true and one false, or both null. |
| `Predicates.DeMorgan` | crates/oxistore-columnar/src/predicate.rs:129-150 | The negation of a conjunction is the disjunction of the negations, and the other way round, nulls included. |
| `Predicates.RuledOutParts` | crates/oxistore-columnar/src/predicate.rs:163-173 | A conjunction is ruled out exactly when some part is, a disjunction exactly when every part is. |
| `Predicates.BoolExact` | crates/oxistore-columnar/src/predicate.rs:406-422 | Boolean pruning keeps a group exactly when some value within the bounds would match; Ne always keeps it. |
| `Predicates.BytesExact` | crates/oxistore-columnar/src/predicate.rs:491-512 | Byte string pruning keeps a group exactly when some string within the bounds would match, or when Ne finds only the scalar but nulls may be stored. |
| `Predicates.FloatExact` | crates/oxistore-columnar/src/predicate.rs:452-488 | Away from NaN, float pruning keeps a group exactly when some number within the bounds would match; Ne rules it out exactly when both bounds are within one epsilon of the scalar and no null is stored. |
| `Utf8.ValidIff` | crates/oxistore-columnar/src/predicate.rs:220-224 | The test accepts exactly the byte strings that encode code points. |
| `PredicateTables.MatchingIs` | crates/oxistore-columnar/src/predicate.rs:115-150 | A row is kept, as often as it occurs, exactly when the predicate is true of it in two-valued logic and it has no null in a compared column. |
| `PredicateTables.NegationPartitions` | crates/oxistore-columnar/src/predicate.rs:145-150 | The rows a predicate is true of, those its negation is true of and those that meet a null are all the rows, each once. |
| `PredicateTables.EvaluateBatch` | crates/oxistore-columnar/src/predicate.rs:115-150 | The mask holds each row its own three-valued answer; evaluation fails exactly when a column is missing or not comparable with its scalar, anywhere in the predicate. |
| `PredicateTables.EvaluateAnd` | crates/oxistore-columnar/src/predicate.rs:129-136 | The accumulating loop gives the conjunction row by row. |
| `PredicateTables.EvaluateOr` | crates/oxistore-columnar/src/predicate.rs:137-144 | The accumulating loop gives the disjunction row by row. |
| `PredicateTables.Filter` | crates/oxistore-columnar/src/lib.rs:880-895 | Filtering keeps exactly the matching rows, in order and without empty batches; it fails exactly when there is a batch and the predicate does not fit the schema. |
| `PredicateTables.FilterBatch` | crates/oxistore-columnar/src/lib.rs:883-889 | Rows whose mask is true are kept; null counts as false. |
| `PredicateTables.SelectGroups` | crates/oxistore-columnar/src/reader.rs:183-185 | The surviving row groups are those that may match by the statistics of the leaves, in order. |
| `PredicateTables.PushdownExact` | crates/oxistore-columnar/src/reader.rs:173-198 | Filtering the surviving groups gives the rows that filtering all groups gives, when every compared column is looked up at its own leaf. |
| `PredicateTables.PushdownIff` | crates/oxistore-columnar/src/reader.rs:173-198 | No predicate that fits the schema and no honest row groups lose a row, exactly when no comparable column is shadowed by an earlier leaf. |
| `PredicateTables.NestedLeafLosesRow` | crates/oxistore-columnar/src/predicate.rs:331-347 | A struct field before a top-level column of the same name: the matching row is lost. |
| `PredicateTables.ReadAndFilter` | crates/oxistore-columnar/src/reader.rs:173-198 | Whatever batches the reader cuts the surviving rows into, all matching rows of the file come back once and in order, when every compared column is looked up at its own leaf. |
| `Keyrings.KekForIs` | crates/oxistore-encrypt/src/keyring.rs:131-136 | Versions run from 1 to the active one, each with its own key, and no other version has a key. |
| `Keyrings.KekForExtends` | crates/oxistore-encrypt/src/keyring.rs:147-154 | A key once in the ring stays under its version when more are added. |
| `Keyrings.Keyring.constructor` | crates/oxistore-encrypt/src/keyring.rs:59-63 | A new ring has one key, at version 1. |
| `Keyrings.Keyring.ActiveVersion` | crates/oxistore-encrypt/src/keyring.rs:110-115 | The active version is the number of keys. |
| `Keyrings.Keyring.ActiveKek` | crates/oxistore-encrypt/src/keyring.rs:123-128 | The active key is the one stored under the active version. |
| `Keyrings.Keyring.KekForVersion` | crates/oxistore-encrypt/src/keyring.rs:131-136 | The search finds the key of the version, or nothing exactly outside 1 to the active version. |
| `Keyrings.Keyring.Rotate` | crates/oxistore-encrypt/src/keyring.rs:147-154 | The new key gets the next version and becomes active; at the last 32-bit version it panics or wraps to version 0, by build, and only the wrap breaks the numbering. |
| `Keyrings.WrapHidesNextKey` | crates/oxistore-encrypt/src/keyring.rs:131-154 | After a wrap the next key takes version 1 again, where the search finds the oldest key. |
| `Envelopes.Build` | crates/oxistore-encrypt/src/envelope.rs:51-63 | Every field is read back from its offset in the layout of 4, 24, 48 and 24 bytes and the sealed data. |
| `Envelopes.Encrypt` | crates/oxistore-encrypt/src/envelope.rs:95-142 | An envelope is 116 bytes longer than its plaintext and carries the active version. |
| `Envelopes.EncryptSeals` | crates/oxistore-encrypt/src/envelope.rs:95-142 | Bytes 0 to 4 are the active version, 28 to 76 the data key sealed under its key and bound to it, and from 100 on the plaintext sealed under the data key; the nonces lie between. |
| `Envelopes.DecryptOpensIff` | crates/oxistore-encrypt/src/envelope.rs:151-213 | Decryption gives a plaintext exactly when the envelope is long enough, the ring has its version, its key opens the data key bound to the version, and that opens the data to it. |
| `Envelopes.RoundTrip` | crates/oxistore-encrypt/src/envelope.rs:95-213 | Decryption gives back the plaintext under the ring that encrypted and under every ring grown from it. |
| `Envelopes.GrowthKeeps` | crates/oxistore-encrypt/src/envelope.rs:231-237 | Adding keys never changes what any bytes decrypt to. |
| `Envelopes.RewrapKeeps` | crates/oxistore-encrypt/src/envelope.rs:245-324 | A re-wrapped envelope decrypts as the original for every associated data, failures included, carries the active version and the same data section. |
| `Envelopes.RewrapOkIff` | crates/oxistore-encrypt/src/envelope.rs:245-324 | Re-wrapping succeeds exactly when the data key can be unwrapped. |
| `EnvelopeStores.HalfwayPreserves` | crates/oxistore-encrypt/src/envelope.rs:353-366 | After any prefix of the rotation loop, everything readable before is readable, with the same value. |
| `EnvelopeStores.EnvelopeStore.constructor` | crates/oxistore-encrypt/src/envelope.rs:382-387 | A new store is empty. |
| `EnvelopeStores.EnvelopeStore.Put` | crates/oxistore-encrypt/src/envelope.rs:443-446 | A put makes the key readable with that value and changes no other. |
| `EnvelopeStores.EnvelopeStore.Get` | crates/oxistore-encrypt/src/envelope.rs:433-441 | A get gives the readable value, nothing for an absent key, and an error exactly for an unreadable one. |
| `EnvelopeStores.EnvelopeStore.Delete` | crates/oxistore-encrypt/src/envelope.rs:448-450 | A delete removes the key. |
| `EnvelopeStores.EnvelopeStore.RewrapAll` | crates/oxistore-encrypt/src/envelope.rs:353-366 | The loop stops at the first envelope whose data key does not unwrap; before that all are re-wrapped, after it none is touched. |
| `EnvelopeStores.EnvelopeStore.RotateKek` | crates/oxistore-encrypt/src/envelope.rs:402-429 | Rotation preserves every readable value whether it completes or stops; on completion every envelope carries the new version with its data section unchanged, and it completes if all values were readable. |
| `EnvelopeStores.RotationClearsExpiries` | crates/oxistore-encrypt/src/envelope.rs:357-363 | Because rotation writes back with a plain put, over a store with expiries every key visible then stays visible for good. |
| `Calendar.CivilIsNth` | crates/oxistore-blob-azure/src/sign.rs:177-201 | For every day count the arithmetic gives the date counted day by day from 1 January 1970. |
| `Calendar.CivilNext` | crates/oxistore-blob-azure/src/sign.rs:185-198 | One more day is the Gregorian successor date. |
| `Calendar.CivilEpoch` | crates/oxistore-blob-azure/src/sign.rs:185-198 | Day 0 is 1 January 1970. |
| `Calendar.MarchDateBounds` | crates/oxistore-blob-azure/src/sign.rs:189-194 | Era, year of era and day of year locate the day in its March-based year. |
| `Calendar.NthValid` | crates/oxistore-blob-azure/src/sign.rs:177-201 | Every date has a month from 1 to 12 and a day within that month. |
| `Calendar.NthIncreases` | crates/oxistore-blob-azure/src/sign.rs:177-201 | Later days have later dates. |
| `Calendar.CalendarExact` | crates/oxistore-blob-azure/src/sign.rs:177-201 | Hour, minute and second are in range and, with the day, give back the seconds. |
| `Calendar.WeekdayCycles` | crates/oxistore-blob-azure/src/sign.rs:158-159 | The epoch day is a Thursday and weekdays follow each other. |
| `Calendar.FieldsInRange` | crates/oxistore-blob-azure/src/sign.rs:157-174 | Every table index of the format is in range and every number but the year fits its field. |
| `Calendar.Rfc1123Reads` | crates/oxistore-blob-azure/src/sign.rs:157-174 | Up to the year 9999 a decimal reader finds the day, year, hour, minute and second at their fixed places of the 29 characters, and the names found are those of the month and the weekday. |
| `Calendar.Rfc1123Determines` | crates/oxistore-blob-azure/src/sign.rs:157-174 | Up to the year 9999 no two seconds have the same string. |
| `MemoryBlobs.FollowPages` | crates/oxistore-blob/src/memory.rs:187-217 | On an unchanged store, following pages of any limit >= 1 by the last key ends and their concatenation is the whole listing, each blob once and in order, within one call more than there are blobs. |
| `MemoryBlobs.AfterIsRest` | crates/oxistore-blob/src/memory.rs:200-206 | After the n-th listed key come exactly the rest of the listing. |
| `MemoryBlobs.ListMetaExact` | crates/oxistore-blob/src/memory.rs:154-217 | A listing is the sorted keys with the prefix, each with the length of its contents; a page is the first of those after the token, as many as the limit or all that are left. |
| `MemoryBlobs.UsedNothing` | crates/oxistore-blob/src/memory.rs:67-92 | An empty store uses no bytes. |
| `MemoryBlobs.MemoryBlobStore.Put` | crates/oxistore-blob/src/memory.rs:67-92 | Refused, with nothing changed, exactly when the contents would exceed the limit; the byte count stays exact. |
| `MemoryBlobs.MemoryBlobStore.Delete` | crates/oxistore-blob/src/memory.rs:107-119 | Not found exactly for an absent key; the byte count stays exact. |

## Left out

- Cloud blob clients, request signing and canonicalisation, OAuth, XML and JSON: network protocols over libraries that are not part of this model.
- Real cryptography, key derivation and random numbers: foreign primitives, taken as functions with the stated law.
- Parquet and Arrow reading and writing, codecs and streaming: a row group is its rows and statistics.
- Local blob files, partitioned datasets, builders, statistics counters, sharding, rate limiting, retries, error conversions: plumbing or easy members.
- `WriteThroughCache`, `CacheableKvStore` and `BlobCache`: coherence of one call after another, which would only add easy members.
- Write-back over LFU, ARC and W-TinyLFU: modelled on values; only the adapter over LRU is also an object.
- `batch_write_across`, `from_database` and other ways to reach the expiry keyspace from outside the store.
- Store failures: every batch commit and inner store call succeeds.
- Clock: an operation reads it once. Scans and `ttl` of the source read it again for each key or value, so a key may expire in the middle of one. Runs assume it does not go back, and instants before the Unix epoch are not modelled.
- Malformed expiry bytes: the store writes eight bytes for every expiry, and that is an invariant of `FjallStores.FjallStore`.
- Counters of 64 bits that only grow (`count`, `used_bytes`, `current_bytes`, LFU frequencies): unbounded here.
- Floats: exact numbers and one NaN that sorts above them; infinities, signed zeros and rounding are not modelled.
- fnv1a hashing and key serialisation: the sketch and the cache take any hash function.
- Key ranges upside down: the fjall keyspaces are taken to yield nothing for them; only the ordered map of a transaction panics.
- `TtlStore.RunRefines`: leaves out runs in which `expire` or `persist` meets an expired key, because there the answers differ, as `TtlStore.RunAgreesIff` shows.
- `Lfu.RunInv`: leaves out runs with a resize that empties the minimum bucket, because `Lfu.ResizeKeepsInvIff` shows the invariant fails after exactly those.
- `PredicateTables.PushdownExact`: leaves out float comparisons that `Predicates.FloatPruneExact` shows to be pruned wrongly, and columns looked up at another leaf, as `PredicateTables.PushdownIff` shows.
- `Predicates.PruneSound`: for one compound predicate the condition on its leaves is sufficient only, because another part of it may hide a wrong lookup; it is exact for a comparison (`Predicates.CmpSoundIff`) and for a file (`Predicates.SchemaPrunesIff`).
- Values inside nested columns: a struct, list or map column is one opaque value; only its leaves' names, kinds and statistics are modelled.
- `EnvelopeStores.EnvelopeStore.RotateKek`: one rotation at a time, no writes in between, and a build with overflow checks.
- `Calendar.Rfc1123Reads`: dates after the year 9999, whose strings are longer.
- `Bounded.CrowdedForGoodIff`: leaves out an inner capacity of 1, which holds one entry anyway.
