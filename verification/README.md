# Models of a DNS resolver's caches, codec and shared state

A caching DNS resolver keeps answers in one of three in-memory caches behind a write-ahead
journal, reads and writes DNS messages byte by byte, merges concurrent queries for one name,
and remembers which upstreams are failing and which domains do not exist. This project states
what those parts do and proves it.

Four ideas run through it.

* **What is updated in place is a class.** Its methods are proved against functions on plain
  values, and the properties are lemmas about those functions: about all inputs, all sequences
  of operations or all interleavings.
* **Loops are kept.** Where the program loops over bytes, slots or shares there is a loop with
  its invariants, proved equal to a recursive specification.
* **Every specification is pinned down from outside.** What a function means is stated by lemmas
  that do not call it: which pair ends up where, which byte holds what, which count is reached.
* **Where the program falls short, the exact condition is proved,** with a concrete input.

## The parts

* **Ordered map** (`Assoc`, `Arena`, `OrderedMap`). A doubly linked list in an arena of slots
  with a hash index and a free list refines a list of distinct key/value pairs.
* **Caches** (`Entries`, `Operations`, `LruModel`, `LruMoves`, `LruCache`, `Sketch`, `TinyModel`,
  `TinyRuns`, `TinyMoves`, `TinyCache`, `Allocation`, `PartitionModel`, `PartitionMoves`,
  `Partitioned`). A sharded LRU, a W-TinyLFU with three segments and a count-min sketch, and an
  LRU split into partitions by weight. Expired entries leave silently, so contents are compared
  up to expiry.
* **Journal and readers** (`Journal`, `Replay`, `Swap`, `Reads`). The journalled events rebuild
  what the cache still holds, in the order in which they are queued and in the order of their
  numbers (a put that evicts queues its evictions, with the larger numbers, first). Readers never
  see anything but the last entry written to their slot.
* **DNS codec** (`Bytes`, `Unicode`, `Names`, `Lexing`, `SvcParams`, `RecordData`,
  `RecordRoundTrip`, `UncleanNames`, `NamedRecords`, `FieldRecords`, `TextForms`, `Messages`,
  `Edns`, `Responses`, `Queries`). Names with compression (sections 3.1 and 4.1.4 of RFC 1035),
  the text forms of record data (section 2.1 and Appendix A of RFC 9460 for service parameters),
  message parsing, responses of bounded size (section 4.1 of RFC 1035), and EDNS queries with
  padding (section 6.1.2 of RFC 6891, section 4.1 of RFC 8467).
* **Single-flight** (`SingleFlight`). Callers as interleaved steps: join, count, run, finish,
  read, cancel, uncount, unmap.
* **Circuit breaker** (`Breaker`) and **non-existent domains** (`Rfc8020`, section 2 of
  RFC 8020), as state machines over sequences of events.

Times are real numbers and time is a parameter; the hash function is an arbitrary function.
Text of addresses is a pair of functions assumed to be inverse where a lemma says `Faithful`.

## Where a promise or an expectation does not hold

* `peek` drops an expired entry, in all policies, although its comments promise that it removes
  nothing: it changes nothing if and only if the slot holds nothing expired
  (`Reads.PeekKeepsIff`, `Reads.PeekDropsLoneEntry`).
* Growing the W-TinyLFU from 47 to 48 entries shrinks two segments and can evict
  (`TinyRuns.GrowthAt48Evicts`); the exact condition is `TinyRuns.ResizeEvictsNothingIff`.
* Partitions of fewer than 16 entries are raised to 16 each, so the configured total is kept
  exactly when there is room for that (`Allocation.WithinTotalIff`).
* Partitions that together have too many entries for a small capacity do not give them back in
  turn: the first in the ranking is brought down to one, then the next (`Allocation.SmallSharesExact`).
* DS, SSHFP, DNSKEY and TLSA data with an empty tail prints to text that is refused, and names
  are printed without escapes. Where a record type does not round trip for all data, the exact
  condition is the lemma whose name ends in `RoundTripIff`.
* Single-flight merges per shared cell. Per key at most one caller computes at a time in every run
  in which no entry with an unfilled cell is unmapped while a caller still uses it
  (`SingleFlight.OnePerKey`). From any state in which such an unmapping is possible and one more
  caller is idle, two computations of the key can follow (`SingleFlight.OrphaningAllowsTwo`), and
  such a state is reached (`SingleFlight.TwoRunsOfOneKey`).
* The deadline of a circuit can move back without a recovery once its settings are changed: it
  can if and only if a window becomes shorter (`Breaker.SettingsMoveBackIff`,
  `Breaker.DeadlineBackIff`, `Breaker.ShorterWindowMovesBack`).

## Model

| member | source | states |
|---|---|---|
| OrderedMaps.OrderedMap.constructor | crates/ebpdns-cache/src/ordered_map.rs:41-50 | a new map is well formed and holds nothing |
| OrderedMaps.OrderedMap.Alloc | crates/ebpdns-cache/src/ordered_map.rs:74-92 | a fresh or reused slot gets the node; the chain of linked slots and every other slot are untouched, so a reused slot is never one in use |
| OrderedMaps.OrderedMap.Unlink | crates/ebpdns-cache/src/ordered_map.rs:95-118 | exactly the given slot leaves the chain; forward and backward links agree again and no slot loses its pair |
| OrderedMaps.OrderedMap.PushBackIdx | crates/ebpdns-cache/src/ordered_map.rs:120-141 | the slot becomes the last of the chain; links agree both ways, pairs unchanged |
| OrderedMaps.OrderedMap.PushFrontIdx | crates/ebpdns-cache/src/ordered_map.rs:143-164 | the slot becomes the first of the chain; links agree both ways, pairs unchanged |
| OrderedMaps.OrderedMap.DropNode | crates/ebpdns-cache/src/ordered_map.rs:166-171 | the slot is emptied and joins the free list, its pair is handed back, the length drops by one |
| OrderedMaps.OrderedMap.Insert | crates/ebpdns-cache/src/ordered_map.rs:174-187 | the contents become the old list without the key, plus the pair at the back; links, index, free list and length agree again |
| OrderedMaps.OrderedMap.PushFront | crates/ebpdns-cache/src/ordered_map.rs:227-240 | the contents become the pair followed by the old list without the key; all parts agree again |
| OrderedMaps.OrderedMap.MoveToEnd | crates/ebpdns-cache/src/ordered_map.rs:190-195 | a stored pair moves to the back, all others keep their order; an unknown key changes nothing |
| OrderedMaps.OrderedMap.MoveToFront | crates/ebpdns-cache/src/ordered_map.rs:198-203 | a stored pair moves to the front, all others keep their order; an unknown key changes nothing |
| OrderedMaps.OrderedMap.Remove | crates/ebpdns-cache/src/ordered_map.rs:206-210 | the list loses exactly that key, and its value is handed back |
| OrderedMaps.OrderedMap.RemoveEntry | crates/ebpdns-cache/src/ordered_map.rs:217-221 | the list loses exactly that key, and the stored pair is handed back |
| OrderedMaps.OrderedMap.PopFront | crates/ebpdns-cache/src/ordered_map.rs:243-249 | the first pair is handed back and the rest is left in order; nothing happens to an empty map |
| OrderedMaps.OrderedMap.Front | crates/ebpdns-cache/src/ordered_map.rs:252-255 | the first pair, or none for an empty map |
| OrderedMaps.OrderedMap.Get | crates/ebpdns-cache/src/ordered_map.rs:64-67 | agrees with looking the key up in the plain list |
| OrderedMaps.OrderedMap.ContainsKey | crates/ebpdns-cache/src/ordered_map.rs:60-62 | agrees with membership in the plain list |
| OrderedMaps.OrderedMap.Len | crates/ebpdns-cache/src/ordered_map.rs:52-54 | the length of the plain list |
| OrderedMaps.OrderedMap.Clear | crates/ebpdns-cache/src/ordered_map.rs:257-264 | well formed and empty whatever the state before |
| OrderedMaps.OrderedMap.RangeIndices | crates/ebpdns-cache/src/ordered_map.rs:301-316 | the slots of the pairs from the given position on, in list order, as many as there are up to the count |
| OrderedMaps.OrderedMap.ValueAt | crates/ebpdns-cache/src/ordered_map.rs:319-321 | the value in an occupied slot, none for a free or unknown one |
| OrderedMaps.OrderedMap.RemoveIndex | crates/ebpdns-cache/src/ordered_map.rs:324-347 | the list loses exactly the pair in that slot, or nothing if it is free; every other slot keeps its pair, so indices sampled earlier stay meaningful |
| OrderedMaps.OrderedMap.ContentsDistinct | crates/ebpdns-cache/src/ordered_map.rs:174-187 | no key is ever stored twice |
| OrderedMaps.OrderedMap.Find | crates/ebpdns-cache/src/ordered_map.rs:60-67 | the hash index points at the slot whose place in the chain is the key's place in the list |
| OrderedMaps.OrderedMap.SlotPair | crates/ebpdns-cache/src/ordered_map.rs:324-347 | removing a slot from the chain is removing its key from the list |
| Assoc.ListMoves | crates/ebpdns-cache/src/ordered_map.rs:174-249 | in a list of distinct keys, wherever the key stands: taking it out leaves the others in order, and moving or writing it puts it at the very end asked for, with nothing else moved |
| Assoc.AbsentMoves | crates/ebpdns-cache/src/ordered_map.rs:174-249 | a key that is not stored is not moved, and is added at the end asked for |
| Journals.CacheJournal.NextSeq | crates/ebpdns-cache/src/persist/journal.rs:184-186 | numbers are handed out one by one, each once |
| Journals.CacheJournal.Send | crates/ebpdns-cache/src/persist/journal.rs:232-248 | an event is appended exactly when the journal is enabled and not suspended |
| Journals.CacheJournal.Evictions | crates/ebpdns-cache/src/persist/journal.rs:256-258 | one eviction per key, in order, with consecutive numbers; numbers are drawn even when nothing is queued |
| Journals.CacheJournal.Suspend | crates/ebpdns-cache/src/persist/journal.rs:216-218 | suspensions are counted |
| Journals.CacheJournal.Resume | crates/ebpdns-cache/src/persist/journal.rs:220-226 | one suspension is undone, never below none |
| Journals.EvictBatchConcat | crates/ebpdns-cache/src/persist/journal.rs:256-258 | journalling two lists of keys one after the other is journalling their concatenation |
| Replay.StepQueues | crates/ebpdns-cache/src/lru.rs:232-269 | every operation queues exactly: a put, the evictions it causes (reason capacity, numbers from the second new one on) and behind them itself under the first new number, its entry stamped with it; a deletion and a clear one event each; a resize one eviction per key (reason resize); a read nothing |
| LruCaches.Shard.EvictLocked | crates/ebpdns-cache/src/lru.rs:146-153 | the shard keeps the tail of its list that fits, and reports the dropped head in order |
| LruCaches.Shard.SweepFront | crates/ebpdns-cache/src/lru.rs:717-728 | exactly the leading run of removable entries goes |
| LruCaches.Shard.Scan | crates/ebpdns-cache/src/lru.rs:741-755 | of the pairs in the scanned range exactly the removable ones go, although deletion works on slots sampled before |
| LruCaches.Shard.Purge | crates/ebpdns-cache/src/lru.rs:716-759 | the in-place purge computes the specified purge of the list and moves the cursor as specified |
| LruModel.PurgeThins | crates/ebpdns-cache/src/lru.rs:716-759 | a purge removes only entries expired beyond the stale window and keeps the rest in order; with at most 64 entries left after the head sweep it leaves no removable entry |
| LruCaches.Shard.Put | crates/ebpdns-cache/src/lru.rs:252-257 | the stored list after a put, its purge cursor and counter, and the evicted keys are those specified |
| LruCaches.Shard.Get | crates/ebpdns-cache/src/lru.rs:190-208 | a hit is moved to the back and handed out, an expired entry is handed out never and dropped without a stale window |
| LruCaches.Shard.GetStale | crates/ebpdns-cache/src/lru.rs:211-230 | an expired entry inside the window is handed out and moved back; beyond the window it is dropped; a live one is left |
| LruCaches.Shard.Peek | crates/ebpdns-cache/src/lru.rs:174-186 | hands out a live entry without moving it; drops an expired one, contrary to the comment on the interface |
| LruCaches.LruCache.constructor | crates/ebpdns-cache/src/lru.rs:87-108 | 8 shards whose capacities are the specified split of the clamped capacity, all empty |
| LruCaches.LruCache.Put | crates/ebpdns-cache/src/lru.rs:232-269 | state and evictions of the specified put; the put draws its number first, the evictions are queued before it, under the journal's names for the keys |
| LruCaches.LruCache.Get | crates/ebpdns-cache/src/lru.rs:190-208 | state and answer of the specified get; only the key's own shard changes |
| LruCaches.LruCache.GetStale | crates/ebpdns-cache/src/lru.rs:211-230 | state and answer of the specified stale read; only the key's own shard changes |
| LruCaches.LruCache.Peek | crates/ebpdns-cache/src/lru.rs:174-186 | state and answer of the specified peek; only the key's own shard changes |
| LruCaches.LruCache.Delete | crates/ebpdns-cache/src/lru.rs:271-275 | the key leaves its shard, nothing else changes, nothing is journalled |
| LruCaches.LruCache.Clear | crates/ebpdns-cache/src/lru.rs:277-281 | every shard is emptied, capacities stay |
| LruCaches.LruCache.SetCapacity | crates/ebpdns-cache/src/lru.rs:379-403 | all shards are resized; what was evicted is journalled once, after the last shard, with consecutive numbers |
| LruCaches.LruCache.SetStaleWindow | crates/ebpdns-cache/src/lru.rs:405-407 | only the stale window changes |
| LruCaches.LruCache.AttachJournal | crates/ebpdns-cache/src/lru.rs:480-482 | the journal is exchanged, the cached data stays |
| LruModel.ApplyEffect | crates/ebpdns-cache/src/lru.rs:174-281 | every operation keeps the cache well formed (keys distinct, in the shard they hash to, within its capacity) and, for every key: a put key ends up stored and is not evicted, a reported eviction is gone, any other key is unchanged unless expired |
| LruModel.SetCapacityEffect | crates/ebpdns-cache/src/lru.rs:379-403 | after a resize a key is stored with its old entry unless it is reported evicted |
| LruModel.RunValid | crates/ebpdns-cache/src/lru.rs:87-108 | the well-formedness of every shard survives any sequence of operations |
| LruModel.RecencyOrder | crates/ebpdns-cache/src/lru.rs:190-269 | after any sequence of operations on a fresh cache, with any group and with the stale window set to anything along the way, every shard lists its keys in the order of their last put or hit |
| LruModel.PutEvictsLeastRecent | crates/ebpdns-cache/src/lru.rs:146-153 | in any state reached in that way a put evicts exactly when its key is new and its shard is full, and then the one key of the shard whose last use is longest ago |
| LruModel.EvictedStored | crates/ebpdns-cache/src/lru.rs:146-153 | only what was stored, or the key just put, is ever reported evicted |
| LruModel.CapacityBound | crates/ebpdns-cache/src/lru.rs:87-108 | shard capacities add up to the configured total, which bounds the number of entries |
| LruModel.GrowthEvictsNothing | crates/ebpdns-cache/src/lru.rs:379-403 | a larger or equal capacity evicts nothing and leaves every list alone |
| LruModel.PutThenGet | crates/ebpdns-cache/src/lru.rs:232-269 | an unexpired entry just put is found by a get at that time |
| LruMoves.GetMoves | crates/ebpdns-cache/src/lru.rs:190-208 | wherever a key stands in its shard: an unexpired entry is handed out and moves to the back with nothing else moved; an expired one goes if there is no stale window and stays in place otherwise |
| LruMoves.GetStaleMoves | crates/ebpdns-cache/src/lru.rs:211-230 | only what has expired within the window is handed out, and moves to the back; beyond it the pair goes; an unexpired one is neither handed out nor moved |
| LruMoves.PeekMoves | crates/ebpdns-cache/src/lru.rs:174-186 | an unexpired entry is handed out and stays in place; an expired one goes |
| LruMoves.DeleteMoves | crates/ebpdns-cache/src/lru.rs:271-275 | the pair goes and all others keep their order |
| LruMoves.MissKeeps | crates/ebpdns-cache/src/lru.rs:174-275 | reading or deleting a key that is not stored changes nothing |
| LruMoves.PurgeExact | crates/ebpdns-cache/src/lru.rs:716-759 | the head run beyond the stale window goes; then of 64 pairs from the cursor on (from the front if it is past the end) exactly those beyond the window go, and the cursor ends behind them, going round |
| LruMoves.PutMoves | crates/ebpdns-cache/src/lru.rs:232-269 | the key ends up at the back of its shard with the new entry; a shard grown too long loses its first pair, and reports it; every 32nd put of a shard purges it |
| LruMoves.FreshShards | crates/ebpdns-cache/src/lru.rs:87-108 | the capacity, at least 16, is dealt out evenly over 8 shards, the first ones getting the remainder |
| LruMoves.ResizeMoves | crates/ebpdns-cache/src/lru.rs:379-403 | every shard gives up its least recently used pairs, as many as are too many for its part of the new capacity; they are reported shard by shard in that order |
| LruMoves.ClearMoves | crates/ebpdns-cache/src/lru.rs:277-281 | every shard loses its pairs and keeps its capacity, its counter and its cursor |
| Sketches.CmSketch.constructor | crates/ebpdns-cache/src/tinylfu.rs:73-79 | a fresh sketch counts nothing |
| Sketches.CmSketch.Reset | crates/ebpdns-cache/src/tinylfu.rs:82-86 | all counters, the operation count and the ageing cursor start over |
| Sketches.CmSketch.Inc | crates/ebpdns-cache/src/tinylfu.rs:94-106 | the four-row table update in place is the specified increment, ageing included |
| Sketches.CmSketch.Freq | crates/ebpdns-cache/src/tinylfu.rs:108-118 | the least of the key's four cells |
| Sketches.CmSketch.AgeOneRow | crates/ebpdns-cache/src/tinylfu.rs:120-126 | every counter of the row under the cursor is halved, no other row changes, the cursor goes round |
| Sketches.FreqIsLeast | crates/ebpdns-cache/src/tinylfu.rs:108-118 | folding the rows one by one gives the least cell |
| Sketches.NeverUnderestimates | crates/ebpdns-cache/src/tinylfu.rs:94-118 | in every row, over any history, the key's cell is at least what a private saturating counter with the same increments and halvings would hold |
| Sketches.FreqCountsBetweenAgeings | crates/ebpdns-cache/src/tinylfu.rs:94-118 | until the next ageing the estimate is at least the old estimate plus the key's own increments, up to 255 |
| Sketches.NoAgeing | crates/ebpdns-cache/src/tinylfu.rs:94-118 | until the next ageing a cell is exactly the smaller of 255 and what it held plus the units of all keys that share its column |
| Sketches.CellExact | crates/ebpdns-cache/src/tinylfu.rs:94-126 | over any history every cell is exactly a counter of its column: fed by all keys that share it, stopped at 255, and halved when the turn to age comes to its row |
| Sketches.NeverInvents | crates/ebpdns-cache/src/tinylfu.rs:94-118 | over any history the estimate of a key is at most the units of the keys that share its column, in every row, and so at most those of all keys |
| Sketches.ExactWhenAlone | crates/ebpdns-cache/src/tinylfu.rs:94-118 | before the first ageing the estimate of a key that is alone in its column of some row is exactly the smaller of 255 and its units |
| Sketches.ColumnBits | crates/ebpdns-cache/src/tinylfu.rs:89-92 | the column is made of bits 32 to 41 of the product with the multiplier of the row |
| Sketches.AgeingSchedule | crates/ebpdns-cache/src/tinylfu.rs:94-126 | unit increments halve one row every 16384 increments, the rows taking turns |
| Sketches.EachRowOncePerCycle | crates/ebpdns-cache/src/tinylfu.rs:120-126 | over 4 times 16384 unit increments each of the four rows is halved exactly once, in turn |
| TinyModel.DefaultCapsSum | crates/ebpdns-cache/src/tinylfu.rs:183-207 | the default ratio splits the capacity exactly, with no empty segment |
| TinyModel.DefaultCapsGrow | crates/ebpdns-cache/src/tinylfu.rs:183-207 | from 48 on no segment shrinks when the capacity grows |
| TinyModel.DefaultCapsDropAt48 | crates/ebpdns-cache/src/tinylfu.rs:183-207 | growing from 47 to 48 shrinks the probation segment from 18 to 16 and the protected one from 28 to 16 |
| TinyMoves.DefaultShares | crates/ebpdns-cache/src/tinylfu.rs:183-207 | the window gets a hundredth of the capacity, probation two fifths of the rest, each at least 16 (or 1 below a capacity of 48), and the protected segment what is left |
| TinyCaches.TinyLfuCache.constructor | crates/ebpdns-cache/src/tinylfu.rs:251-277 | an empty cache with the default split of the clamped capacity |
| TinyCaches.TinyLfuCache.AdmitOne | crates/ebpdns-cache/src/tinylfu.rs:313-343 | one round of the window overflow loop: to probation, to protected, or decided against the probation head |
| TinyCaches.TinyLfuCache.DrainWindow | crates/ebpdns-cache/src/tinylfu.rs:313-343 | the loop over the window overflow ends and gives the specified segments and dropped keys |
| TinyCaches.TinyLfuCache.Rebalance | crates/ebpdns-cache/src/tinylfu.rs:344-357 | protected overflow returns to the front of probation, probation overflow is dropped |
| TinyCaches.TinyLfuCache.DropProbation | crates/ebpdns-cache/src/tinylfu.rs:351-357 | the probation head is dropped until the segment fits, and reported in order |
| TinyCaches.TinyLfuCache.EvictLocked | crates/ebpdns-cache/src/tinylfu.rs:304-358 | the three loops together compute the specified eviction, reported keys included |
| TinyModel.EvictConserves | crates/ebpdns-cache/src/tinylfu.rs:304-358 | eviction partitions the old pairs exactly into survivors with unchanged entries and reported evictions, keeps keys distinct and leaves every segment within its capacity |
| TinyModel.EvictIdle | crates/ebpdns-cache/src/tinylfu.rs:304-358 | segments within their capacities are left alone |
| TinyModel.NewestSurvives | crates/ebpdns-cache/src/tinylfu.rs:304-358 | the newest pair of the window is never evicted |
| TinyRuns.EvictDropsNothingIff | crates/ebpdns-cache/src/tinylfu.rs:304-358 | nothing is evicted if and only if probation fits and the main segments have room for the window's overflow |
| TinyRuns.PutEvictsIff | crates/ebpdns-cache/src/tinylfu.rs:313-343 | a put evicts if and only if its key is new and the cache is full; it then evicts one key, the loser by sketch frequency of the contest between the heads of window and probation, the window losing ties |
| TinyMoves.PutNew | crates/ebpdns-cache/src/tinylfu.rs:572-618 | a new key goes to the back of the window; a full window sends its oldest pair to the back of probation, else of the protected segment while there is room, else into the contest with the oldest of probation; the use is counted first, and every 32nd put clears the heads of all segments of entries beyond the stale window |
| TinyMoves.PutAgain | crates/ebpdns-cache/src/tinylfu.rs:572-618 | writing a stored key puts its new entry at the back of the segment that holds it, moves nothing else and evicts nothing |
| TinyCaches.TinyLfuCache.PromotionAllowed | crates/ebpdns-cache/src/tinylfu.rs:371-385 | the gate agrees with the specified watermark and restricted-promotion rule |
| TinyCaches.TinyLfuCache.Promote | crates/ebpdns-cache/src/tinylfu.rs:463-473 | the entry moves to the back of protected; a full protected segment gives its head back to the front of probation |
| TinyModel.PromoteEffect | crates/ebpdns-cache/src/tinylfu.rs:463-473 | a promotion loses, duplicates and changes nothing, and all segments stay within their capacities |
| TinyCaches.TinyLfuCache.GetMiss | crates/ebpdns-cache/src/tinylfu.rs:488-495 | every 32nd miss without a stale window sweeps at most four expired heads of each segment |
| TinyCaches.TinyLfuCache.Hit | crates/ebpdns-cache/src/tinylfu.rs:429-487 | a hit is moved up or back in the segment that holds it, and nowhere else |
| TinyCaches.TinyLfuCache.Get | crates/ebpdns-cache/src/tinylfu.rs:429-496 | state, sketch and answer of the specified get over all three segments |
| TinyModel.GetEffect | crates/ebpdns-cache/src/tinylfu.rs:429-496 | a get only rearranges pairs or loses expired ones, and every segment stays within its capacity |
| TinyMoves.GetMoves | crates/ebpdns-cache/src/tinylfu.rs:429-487 | wherever a key with an unexpired entry stands: in the window and in protected it moves to the back and nothing else moves; from probation it moves to the back of protected, whose oldest pair goes to the front of probation if it was full; if it is used too rarely for the policy, or under the restriction not more often than that oldest pair, it moves to the back of probation; the use is counted |
| TinyMoves.GetExpired | crates/ebpdns-cache/src/tinylfu.rs:429-487 | an expired entry is not handed out, goes if there is no stale window, and stays in place otherwise |
| TinyMoves.GetMisses | crates/ebpdns-cache/src/tinylfu.rs:488-495 | a miss is counted; every 32nd one without a stale window cuts off each segment the expired entries at its head, at most four |
| TinyMoves.GetStaleMoves | crates/ebpdns-cache/src/tinylfu.rs:536-570 | only what has expired within the window is handed out, and moves to the back of its segment; beyond it the pair goes; nothing is counted |
| TinyMoves.PeekMoves | crates/ebpdns-cache/src/tinylfu.rs:500-527 | an unexpired entry is handed out and stays in place, uncounted; an expired one goes |
| TinyCaches.TinyLfuCache.GetStale | crates/ebpdns-cache/src/tinylfu.rs:536-570 | state and answer of the specified stale read, whichever segment holds the key |
| TinyCaches.TinyLfuCache.Peek | crates/ebpdns-cache/src/tinylfu.rs:500-527 | state and answer of the specified peek: no move, no count, but an expired entry is dropped, contrary to its own comment |
| TinyCaches.TinyLfuCache.PurgeOne | crates/ebpdns-cache/src/tinylfu.rs:1050-1061 | exactly the leading run of entries expired beyond the window goes |
| TinyCaches.TinyLfuCache.SweepFront | crates/ebpdns-cache/src/tinylfu.rs:1064-1075 | at most four expired entries go from the head |
| TinyCaches.TinyLfuCache.Put | crates/ebpdns-cache/src/tinylfu.rs:572-618 | state and evictions of the specified put; its number is drawn first and the evictions are queued before it |
| TinyModel.PutEffect | crates/ebpdns-cache/src/tinylfu.rs:572-618 | after a put: the cache is well formed, the key is stored with the entry and not evicted, reported evictions are gone, any other key is unchanged unless expired |
| TinyCaches.TinyLfuCache.Delete | crates/ebpdns-cache/src/tinylfu.rs:620-625 | the key leaves all three segments, the sketch stays |
| TinyCaches.TinyLfuCache.Clear | crates/ebpdns-cache/src/tinylfu.rs:627-634 | segments and sketch start over, capacities stay |
| TinyCaches.TinyLfuCache.SetCapacity | crates/ebpdns-cache/src/tinylfu.rs:915-937 | new split and eviction under one lock, then one journalled eviction per reported key |
| TinyModel.SetCapacityEffect | crates/ebpdns-cache/src/tinylfu.rs:915-937 | after a resize a key is stored with its old entry unless it is reported evicted |
| TinyMoves.DeleteMoves | crates/ebpdns-cache/src/tinylfu.rs:620-625 | the pair goes from its segment and all others stay where they are |
| TinyMoves.ClearedFresh | crates/ebpdns-cache/src/tinylfu.rs:627-634 | a cleared cache is a fresh one but for its counters and its stale window |
| TinyMoves.DrainOutcome | crates/ebpdns-cache/src/tinylfu.rs:313-343 | for any surplus of the window: the oldest pairs fill probation, the next ones the protected segment, and each of the others meets, in order, the oldest pair then left in probation, the one used less being dropped, on a tie the newcomer; winners queue behind |
| TinyMoves.MainsOutcome | crates/ebpdns-cache/src/tinylfu.rs:344-357 | the protected overflow goes to the front of probation, its youngest pair foremost; the pairs too many in probation are dropped from its front |
| TinyMoves.ResizeOutcome | crates/ebpdns-cache/src/tinylfu.rs:915-937 | who is evicted by a resize, in which order, and where everyone else ends up, in closed form |
| TinyCaches.TinyLfuCache.SetStaleWindow | crates/ebpdns-cache/src/tinylfu.rs:939-941 | only the stale window changes |
| TinyRuns.ApplyEffect | crates/ebpdns-cache/src/tinylfu.rs:429-634 | every operation keeps the cache well formed and changes each key only as its put, its deletion, its reported eviction or its expiry account for |
| TinyRuns.SegmentsStayDisjointAndBounded | crates/ebpdns-cache/src/tinylfu.rs:183-207 | after any sequence of operations with the default ratio, changes of the stale window included, no key is stored twice, every segment is within its capacity and the total within the configured one |
| TinyRuns.GrowthEvictsNothing | crates/ebpdns-cache/src/tinylfu.rs:915-937 | growing from 48 or more evicts nothing and moves nothing |
| TinyRuns.ResizeEvictsNothingIff | crates/ebpdns-cache/src/tinylfu.rs:915-937 | the exact condition, for any old and new capacity, under which a resize evicts nothing |
| TinyRuns.GrowthAt48Evicts | crates/ebpdns-cache/src/tinylfu.rs:183-207 | a well-formed cache of capacity 47 from which growing to 48 evicts |
| TinyCaches.TinyLfuCache.RestoreRecords | crates/ebpdns-cache/src/tinylfu.rs:976-1032 | restoring computes the specified state and the number not persisted |
| TinyRuns.SortByCorrect | crates/ebpdns-cache/src/tinylfu.rs:1007-1009 | the sort by remaining life is a sorted permutation |
| TinyRuns.RestoreAccounts | crates/ebpdns-cache/src/tinylfu.rs:976-1032 | of distinct records: stored, expired and not persisted add up to the input; stored are the least of the valid ones and the main capacity; rebalancing loses none; every valid record cut off has no more life left than any kept one |
| TinyRuns.RestoreKeepsValid | crates/ebpdns-cache/src/tinylfu.rs:976-1032 | whatever the records, repeated keys included, the cache is well formed afterwards |
| TinyMoves.SortStable | crates/ebpdns-cache/src/tinylfu.rs:1007-1009 | sorting keeps records of equal rank in their order |
| TinyMoves.AdmittedOldest | crates/ebpdns-cache/src/tinylfu.rs:976-992 | of more records than four times the capacity, or 65536, exactly those with the least numbers are looked at |
| TinyMoves.RestorePlaces | crates/ebpdns-cache/src/tinylfu.rs:976-1032 | of distinct records the unexpired with the most life left are kept, as many as the main segments hold; the longest-lived fill the protected segment in ascending order, the others probation in descending order |
| Allocation.NormaliseCorrect | crates/ebpdns-cache/src/partitioned.rs:50-58 | normalised weights are non-negative and add up to one when some raw weight is positive |
| Allocation.NormalisedWeight | crates/ebpdns-cache/src/partitioned.rs:50-58 | a positive weight becomes its part of the sum of the positive ones, any other weight zero |
| Allocation.Allocate | crates/ebpdns-cache/src/partitioned.rs:100-191 | the loops end, and give the specified shares |
| Allocation.Spread | crates/ebpdns-cache/src/partitioned.rs:132-140 | dealing out the leftover in ranking order, going round as often as needed |
| Allocation.TakeBack | crates/ebpdns-cache/src/partitioned.rs:171-188 | taking back one at a time from shares above one, stopping when none is left |
| Allocation.FirstAbove | crates/ebpdns-cache/src/partitioned.rs:171-184 | the search for the next share above one ends and finds the specified place |
| Allocation.LargestRemainder | crates/ebpdns-cache/src/partitioned.rs:107-144 | with a positive weight and room for 16 each, the shares add up to the capacity exactly, each is 16 plus its quota rounded down or up, and whoever is rounded up precedes whoever is not by fractional part and name |
| Allocation.SharesByWeight | crates/ebpdns-cache/src/partitioned.rs:107-144 | the same from the configured weights themselves |
| Allocation.RoundRobin | crates/ebpdns-cache/src/partitioned.rs:107-144 | with all weights zero the capacity beyond 16 each is dealt out evenly, earlier names getting the remainder |
| Allocation.SmallShares | crates/ebpdns-cache/src/partitioned.rs:145-190 | without room for 16 each, every share is at least one and they add up to the larger of capacity and number of partitions |
| Allocation.SmallSharesExact | crates/ebpdns-cache/src/partitioned.rs:145-190 | without that room every share is its quota rounded down, at least one; what is left over is dealt out in ranking order, and what is too much is taken from the first in that order until it has one left, then from the next |
| Allocation.WithinTotalIff | crates/ebpdns-cache/src/partitioned.rs:84-97 | the partitions, each raised to at least 16 by its own LRU, stay within the total if and only if there is room for 16 each |
| PartitionModel.JournalKeyNamesSlot | crates/ebpdns-cache/src/partitioned.rs:250-256 | two keys have the same journal key if and only if they share a slot: same partition, same inner key |
| PartitionModel.JournalKeyStays | crates/ebpdns-cache/src/partitioned.rs:250-256 | a journal key resolves to the slot it was made from, and is its own journal key |
| PartitionMoves.Resolved | crates/ebpdns-cache/src/partitioned.rs:199-256 | a key goes to the partition of its own group, else to the one called default, else to the first by name; inside it has no group, in the journal that of its partition |
| PartitionMoves.KeyedMoves | crates/ebpdns-cache/src/partitioned.rs:258-319 | an operation on one key is the same operation of the LRU in that partition, no other partition changes, and evicted keys are reported under its name |
| PartitionMoves.FreshMoves | crates/ebpdns-cache/src/partitioned.rs:41-97 | fresh partitions are fresh LRU caches of their names with the shares of the weights |
| PartitionMoves.ResizeMoves | crates/ebpdns-cache/src/partitioned.rs:511-524 | every partition is resized to its share of the new total; evicted keys are reported partition by partition under their names |
| PartitionMoves.AllMove | crates/ebpdns-cache/src/partitioned.rs:321-530 | a clear and a new stale window reach every partition and change nothing else |
| PartitionModel.FreshValid | crates/ebpdns-cache/src/partitioned.rs:41-71 | fresh partitions are well formed and hold nothing |
| PartitionModel.ApplyEffect | crates/ebpdns-cache/src/partitioned.rs:268-325 | every operation keeps the partitions well formed and changes each slot only as its put, deletion, reported eviction or expiry account for; without partitions nothing is stored or reported |
| PartitionModel.SetCapacityEffect | crates/ebpdns-cache/src/partitioned.rs:511-524 | after re-allocation a slot keeps its entry unless its journal key is reported evicted |
| PartitionModel.OccupancyBound | crates/ebpdns-cache/src/partitioned.rs:84-97 | with room for 16 entries per partition the partitions together never hold more than the configured capacity |
| Partitions.PartitionedCache.constructor | crates/ebpdns-cache/src/partitioned.rs:41-71 | one LRU per name with its share, all empty, with separate footprints |
| Partitions.PartitionedCache.Get | crates/ebpdns-cache/src/partitioned.rs:268-273 | state and answer of the specified get, in the resolved partition only |
| Partitions.PartitionedCache.GetStale | crates/ebpdns-cache/src/partitioned.rs:286-296 | state and answer of the specified stale read, in the resolved partition only |
| Partitions.PartitionedCache.Peek | crates/ebpdns-cache/src/partitioned.rs:277-282 | state and answer of the specified peek, in the resolved partition only |
| Partitions.PartitionedCache.Put | crates/ebpdns-cache/src/partitioned.rs:298-308 | the entry goes without its group to the resolved partition; what that LRU queues are exactly the put and its evictions under their journal keys |
| Partitions.PartitionedCache.Delete | crates/ebpdns-cache/src/partitioned.rs:310-319 | the slot is emptied in the resolved partition, no other slot changes |
| Partitions.PartitionedCache.Clear | crates/ebpdns-cache/src/partitioned.rs:321-325 | every partition is emptied |
| Partitions.PartitionedCache.SetCapacity | crates/ebpdns-cache/src/partitioned.rs:511-524 | every partition gets its new share; the evictions of all of them are queued in partition order with consecutive numbers |
| Partitions.PartitionedCache.SetStaleWindow | crates/ebpdns-cache/src/partitioned.rs:526-530 | the loop gives every partition the window, no slot changes and nothing is journalled |
| PartitionModel.WindowEffect | crates/ebpdns-cache/src/partitioned.rs:526-530 | a new stale window keeps the partitions well formed and every slot as it is |
| Partitions.PartitionedCache.AttachJournal | crates/ebpdns-cache/src/partitioned.rs:601-605 | every partition gets the journal, no data changes |
| Swap.SwappableCache.constructor | crates/ebpdns-cache/src/swap.rs:74-83 | the shell starts from the state of the policy it is given |
| Swap.SwappableCache.Get | crates/ebpdns-cache/src/swap.rs:175-177 | answer and state of the policy's get, and nothing is journalled |
| Swap.SwappableCache.GetStale | crates/ebpdns-cache/src/swap.rs:180-187 | answer and state of the policy's stale read, and nothing is journalled |
| Swap.SwappableCache.Peek | crates/ebpdns-cache/src/swap.rs:168-170 | answer and state of the policy's peek, and nothing is journalled |
| Swap.SwappableCache.Put | crates/ebpdns-cache/src/swap.rs:191-194 | with the journal listening, cache and journal make exactly one step of the specification; otherwise the queue stays as it is |
| Swap.SwappableCache.Delete | crates/ebpdns-cache/src/swap.rs:201-213 | the same for a deletion, journalled by the shell under the slot's name after the policy has been changed |
| Swap.SwappableCache.Clear | crates/ebpdns-cache/src/swap.rs:147-155 | the same for a clear, journalled by the shell |
| Swap.SwappableCache.SetCapacity | crates/ebpdns-cache/src/swap.rs:286-289 | the same for a resize, journalled by the policy |
| Swap.SwappableCache.SetStaleWindow | crates/ebpdns-cache/src/swap.rs:291-293 | one step of the specification that leaves the journal alone |
| Swap.SwappableCache.JournalKeyIsSlot | crates/ebpdns-cache/src/swap.rs:201-213 | the name the shell asks the policy for is the name of the slot |
| Replay.PutEitherOrder | crates/ebpdns-cache/src/lru.rs:258-266 | replaying a put with its evictions in queue order or in number order gives the same table |
| Replay.OneOrder | crates/ebpdns-cache/src/persist/journal.rs:232-248 | events with distinct numbers can be put in number order in one way only |
| Replay.ApplyEffect | crates/ebpdns-cache/src/swap.rs:191-220 | whatever the policy, an operation changes each slot only as its put, deletion, reported eviction or expiry account for |
| Replay.StepGood | crates/ebpdns-cache/src/swap.rs:147-220 | one operation through the shell keeps journal and memory in agreement, in queue order and in number order |
| Replay.RunGood | crates/ebpdns-cache/src/swap.rs:147-220 | so does any sequence of operations with time moving forward |
| Replay.JournalRebuildsMemory | crates/ebpdns-cache/src/swap.rs:147-220 | after any sequential sequence of operations on a fresh cache of any policy, with the stale window changed at will, folding the events in queue order or sorted by number gives the same table, and for every key that table and the live cache hold the same unexpired entry |
| Reads.ReadsAnswer | crates/ebpdns-cache/src/swap.rs:159-187 | all three policies answer a read by what the slot holds alone: unexpired for get and peek, expired within the window for a stale read |
| Reads.ReadAfterWrite | crates/ebpdns-cache/src/swap.rs:175-194 | an unexpired entry is found by the next get or peek of any key that shares its slot, whatever the policy |
| Reads.PeekKeepsIff | crates/ebpdns-cache/src/swap.rs:168-170 | under every policy a peek leaves the cache as it is if and only if the slot holds nothing that has expired; otherwise the entry is dropped |
| Reads.PeekDropsLoneEntry | crates/ebpdns-cache/src/swap.rs:168-170 | a fresh cache of each policy with one entry that a peek at its expiry drops: the concrete input |
| Reads.HoldsLastWrite | crates/ebpdns-cache/src/swap.rs:147-220 | after any sequence of operations a slot holds nothing or the last entry written to it |
| Reads.ReadsLastWrite | crates/ebpdns-cache/src/swap.rs:147-220 | a read after any sequence of operations on a fresh cache finds nothing or the last entry written to its slot, never an expired one, or for a stale read only one expired within the window |
| Names.EncodeName | crates/ebpdns-proto/src/name.rs:86-130 | the encoding loop writes exactly the specified wire form, or refuses the name |
| Names.DecodeName | crates/ebpdns-proto/src/name.rs:141-211 | the decoding loop ends on every byte string and every offset and gives the specified result; labels are read as UTF-8, each ill-formed run as one replacement character |
| Unicode.LossyBack | crates/ebpdns-proto/src/name.rs:195-201 | lossy decoding gives back the text whose UTF-8 bytes it is given, and goes on with what follows them |
| Unicode.LosslessIff | crates/ebpdns-proto/src/rdata.rs:1081-1085 | lossy decoding followed by encoding gives the bytes back if and only if they are the UTF-8 form of some text |
| Unicode.FirstExact | crates/ebpdns-proto/src/name.rs:195-201 | on any bytes reading takes the character they start with, or else one replacement for the longest run that begins a character, and for one byte where none does |
| Names.WalkIff | crates/ebpdns-proto/src/name.rs:141-211 | a name decodes to given labels exactly when it spells them over at most 32 pointers, each back, in less than 255 bytes, and ends behind its root byte or its first pointer |
| Names.EncodeIff | crates/ebpdns-proto/src/name.rs:86-130 | a name encodes exactly when it is ASCII, has no label above 63 bytes and takes at most 255 bytes; any other is refused as invalid |
| Names.LoopEnds | crates/ebpdns-proto/src/name.rs:141-211 | anywhere in any message a label in front of a pointer back to itself is refused once the jumps or the bytes of a name are used up |
| Names.WalkBounds | crates/ebpdns-proto/src/name.rs:141-211 | a decoded name ends behind its start and inside the message, with labels of 1 to 63 bytes and within the total limit |
| Names.WalkWire | crates/ebpdns-proto/src/name.rs:141-211 | uncompressed labels at any place in a message decode to themselves and the position behind them, or are refused for length |
| Names.LimitsCoincide | crates/ebpdns-proto/src/name.rs:86-211 | the decoder accepts uncompressed labels exactly when the encoder's 255-byte limit does |
| Names.DecodeEncoded | crates/ebpdns-proto/src/name.rs:86-211 | decoding an encoded name inside any message gives the name without trailing dots and empty labels, and the exact end |
| Names.EncodeDecoded | crates/ebpdns-proto/src/name.rs:86-211 | encoding a decoded name of ASCII labels without dots gives its labels back |
| Names.EncodeLabels | crates/ebpdns-proto/src/name.rs:86-130 | the printed form of ASCII labels without dots encodes to their wire form |
| Names.LabelsOfPlain | crates/ebpdns-proto/src/name.rs:86-120 | a name without empty labels is the join of its labels |
| Names.LabelsTrim | crates/ebpdns-proto/src/name.rs:86-90 | trailing dots make no labels |
| Lexing.PushEscaped | crates/ebpdns-proto/src/rdata.rs:270-283 | the loop appends exactly the escaped form |
| Lexing.SplitTokens | crates/ebpdns-proto/src/rdata.rs:290-345 | the tokenizer loops compute the specified tokens, or refuse an open quote or escape |
| Lexing.ScanToken | crates/ebpdns-proto/src/rdata.rs:301-343 | the inner loop takes exactly one token, quotes and escapes included, and at least one character |
| Lexing.UnescapeText | crates/ebpdns-proto/src/rdata.rs:348-386 | the loop undoes escapes as specified, or refuses |
| Lexing.Base64Encode | crates/ebpdns-proto/src/rdata.rs:409-429 | the loop writes the specified text, padding included |
| Lexing.Base64Decode | crates/ebpdns-proto/src/rdata.rs:435-462 | the loop with its bit buffer computes the specified bytes, or refuses |
| Lexing.HexEncode | crates/ebpdns-proto/src/rdata.rs:225-240 | the loop writes two digits per byte |
| Lexing.HexDecode | crates/ebpdns-proto/src/rdata.rs:1274-1297 | the loop reads two digits per byte, or refuses |
| Lexing.UnescapeEscaped | crates/ebpdns-proto/src/rdata.rs:270-386 | unescaping an escaped byte string gives the bytes back, inside lists or not |
| Lexing.QuotedPiece | crates/ebpdns-proto/src/rdata.rs:246-345 | a quoted byte string is read as one piece of a token, its escaped form |
| Lexing.LineTokens | crates/ebpdns-proto/src/rdata.rs:290-345 | a line of words is read as exactly their tokens |
| Lexing.DecimalRoundTrip | crates/ebpdns-proto/src/rdata.rs:389-402 | printed numbers are one word each and are read back as u8 and u16 |
| Lexing.Base64RoundTrip | crates/ebpdns-proto/src/rdata.rs:409-462 | decoding base64 text gives the bytes it was made from, for every length |
| Lexing.HexRoundTrip | crates/ebpdns-proto/src/rdata.rs:225-240 | decoding hexadecimal text gives the bytes it was made from |
| SvcParams.KeyCodeText | crates/ebpdns-proto/src/rdata.rs:467-505 | every one of the 65536 keys is read back from its printed name, known or numbered |
| SvcParams.MandatoryList | crates/ebpdns-proto/src/rdata.rs:545-558 | the loop prints the key list, or finds it cannot be shown as one |
| SvcParams.AlpnList | crates/ebpdns-proto/src/rdata.rs:561-582 | the loop prints the protocol list, or finds it cannot be shown as one |
| SvcParams.HintList | crates/ebpdns-proto/src/rdata.rs:585-608 | the loop prints the address list, or finds it cannot be shown as one |
| SvcParams.ParseMandatoryList | crates/ebpdns-proto/src/rdata.rs:689-698 | the loop reads the key list |
| SvcParams.ParseAlpnList | crates/ebpdns-proto/src/rdata.rs:700-714 | the loop reads the protocol list, escaped commas included |
| SvcParams.ParseHintList | crates/ebpdns-proto/src/rdata.rs:716-731 | the loop reads the address list |
| SvcParams.MandatoryRoundTrip | crates/ebpdns-proto/src/rdata.rs:545-698 | a printed key list is read back as the same bytes |
| SvcParams.AlpnRoundTrip | crates/ebpdns-proto/src/rdata.rs:561-714 | a printed protocol list is read back as the same bytes, with commas, quotes and backslashes in the names |
| SvcParams.HintRoundTrip | crates/ebpdns-proto/src/rdata.rs:585-731 | a printed address list is read back as the same bytes |
| SvcParams.ParamRoundTrip | crates/ebpdns-proto/src/rdata.rs:509-687 | for every key and every value the printed parameter is one token and reading it gives the same key and bytes, whichever form was chosen |
| RecordData.ParseParamList | crates/ebpdns-proto/src/rdata.rs:621-651 | the parameter loop finds the specified parameters, or refuses |
| RecordData.EncodeParamList | crates/ebpdns-proto/src/rdata.rs:734-754 | the encoding loop writes the specified bytes, or refuses |
| RecordData.ReadSegments | crates/ebpdns-proto/src/rdata.rs:1071-1089 | the segment loop reads the specified text, ill-formed UTF-8 replaced segment by segment |
| RecordData.WriteSegments | crates/ebpdns-proto/src/rdata.rs:1185-1213 | the loop cuts text into the specified segments, none above 255 bytes and no character cut |
| RecordRoundTrip.NameToken | crates/ebpdns-proto/src/rdata.rs:611-618 | a clean name is printed as one token that encodes to its labels |
| RecordRoundTrip.SvcbWireParsed | crates/ebpdns-proto/src/rdata.rs:621-651 | the wire form of any priority, target and parameters parses to them, at any place in a message |
| RecordRoundTrip.SvcbRoundTrip | crates/ebpdns-proto/src/rdata.rs:611-754 | SVCB and HTTPS data with a clean target, compressed or not: parsed, shown and encoded it parses to the same record, and is the same bytes if uncompressed |
| UncleanNames.SvcbRoundTripIff | crates/ebpdns-proto/src/rdata.rs:611-754 | uncompressed SVCB and HTTPS data comes back byte for byte if and only if the target is clean: ASCII labels without dots, blanks, quotes and backslashes, and no vertical tab at the very end of the text |
| RecordRoundTrip.NaptrWireParsed | crates/ebpdns-proto/src/rdata.rs:771-795 | the wire form of any NAPTR fields parses to them, at any place in a message |
| RecordRoundTrip.NaptrRoundTrip | crates/ebpdns-proto/src/rdata.rs:771-901 | NAPTR data with a clean replacement round trips in the same way |
| UncleanNames.NaptrRoundTripIff | crates/ebpdns-proto/src/rdata.rs:771-901 | uncompressed NAPTR data comes back byte for byte if and only if the replacement is clean |
| UncleanNames.SpecialLost | crates/ebpdns-proto/src/rdata.rs:290-386 | a printed name with a blank, quote or backslash in it is never read back as itself, whatever follows |
| UncleanNames.BlankTargetLost | crates/ebpdns-proto/src/rdata.rs:611-754 | a record whose target is one blank is lost: the concrete input |
| RecordRoundTrip.CaaRoundTrip | crates/ebpdns-proto/src/rdata.rs:797-920 | CAA data comes back byte for byte |
| RecordRoundTrip.UriRoundTrip | crates/ebpdns-proto/src/rdata.rs:861-1001 | URI data comes back byte for byte |
| RecordRoundTrip.DsRoundTripIff | crates/ebpdns-proto/src/rdata.rs:814-937 | DS and CDS data comes back byte for byte if and only if the digest is not empty; otherwise its text is refused |
| RecordRoundTrip.SshfpRoundTripIff | crates/ebpdns-proto/src/rdata.rs:826-952 | SSHFP data comes back if and only if the fingerprint is not empty; otherwise its text is refused |
| RecordRoundTrip.DnskeyRoundTripIff | crates/ebpdns-proto/src/rdata.rs:837-969 | DNSKEY and CDNSKEY data comes back if and only if the key is not empty; otherwise its text is refused |
| RecordRoundTrip.TlsaRoundTripIff | crates/ebpdns-proto/src/rdata.rs:849-986 | TLSA data comes back if and only if the association data is not empty; otherwise its text is refused |
| NamedRecords.NameRoundTripIff | crates/ebpdns-proto/src/rdata.rs:1045-1055 | CNAME, NS and PTR data, uncompressed and anywhere in a message, comes back if and only if its labels are ASCII without dots and trimming leaves the printed name alone |
| NamedRecords.AddressRoundTrip | crates/ebpdns-proto/src/rdata.rs:1157-1167 | A and AAAA data comes back byte for byte |
| NamedRecords.MxRoundTripIff | crates/ebpdns-proto/src/rdata.rs:1169-1184 | MX data parses to its fields and comes back if and only if the exchange is not the root, its labels are ASCII without dots and it does not end in white space |
| NamedRecords.TxtRoundTrip | crates/ebpdns-proto/src/rdata.rs:1185-1213 | TXT data of any bytes and length comes back as the same record, though segments may be cut differently |
| FieldRecords.SrvRoundTripIff | crates/ebpdns-proto/src/rdata.rs:1234-1252 | SRV data parses to its fields and comes back if and only if the target is not the root, its labels are ASCII without dots and there is no white space in it |
| FieldRecords.SoaRoundTripIff | crates/ebpdns-proto/src/rdata.rs:1214-1233 | SOA data parses to its fields and comes back if and only if neither name is the root, the labels of both are ASCII without dots and there is no white space in either |
| FieldRecords.OtherRoundTrip | crates/ebpdns-proto/src/rdata.rs:1146-1272 | data of an unknown type, empty data included, comes back byte for byte |
| TextForms.TenTimes | crates/ebpdns-proto/src/rdata.rs:389-406 | numbers are decimal: a further digit multiplies by ten |
| TextForms.HexForm | crates/ebpdns-proto/src/rdata.rs:225-243 | hexadecimal text has two lower-case digits for every byte |
| TextForms.UnhexIff | crates/ebpdns-proto/src/rdata.rs:1274-1299 | exactly the texts of an even number of digits of either case are read, two digits making a byte |
| TextForms.Base64Form | crates/ebpdns-proto/src/rdata.rs:409-432 | base64 text has four characters of the standard alphabet for every three bytes, and equals signs for the characters that hold no bits |
| TextForms.UnbaseIff | crates/ebpdns-proto/src/rdata.rs:435-464 | blanks, and all from the first equals sign on, do not matter; what is left is read exactly if it is in the alphabet |
| TextForms.UnescapeForms | crates/ebpdns-proto/src/rdata.rs:348-386 | a backslash with three digits is that byte, above 255 an error, and before any other character stands for that character |
| TextForms.EscapedForm | crates/ebpdns-proto/src/rdata.rs:246-283 | which bytes stand for themselves and which are written as a backslash and three digits, in lists and outside |
| TextForms.TrimExact | crates/ebpdns-proto/src/rdata.rs:1157-1160 | trimming takes all white space from both ends and nothing else |
| TextForms.WhiteSpace | crates/ebpdns-proto/src/rdata.rs:290-345 | which characters separate tokens, and which are trimmed and separate fields |
| TextForms.BlanksAround | crates/ebpdns-proto/src/rdata.rs:290-345 | blanks in front of a text and behind it make no tokens |
| TextForms.KeyNames | crates/ebpdns-proto/src/rdata.rs:467-506 | the registered parameter names in the order of their numbers, numbered names beyond, read in any case |
| TextForms.SimpleForms | crates/ebpdns-proto/src/rdata.rs:509-542 | ports, key configurations, paths and the parameters without a value are shown by name, and by number where the value has another form |
| TextForms.NumberForm | crates/ebpdns-proto/src/rdata.rs:509-542 | unknown parameters are shown by number with their quoted bytes |
| TextForms.ListForms | crates/ebpdns-proto/src/rdata.rs:545-582 | keys and protocols are shown as lists with commas |
| TextForms.HintForms | crates/ebpdns-proto/src/rdata.rs:585-605 | addresses are shown as lists with commas |
| TextForms.SegmentsCut | crates/ebpdns-proto/src/rdata.rs:1185-1213 | text is cut into length-prefixed pieces of whole characters, each as long as 255 bytes allow |
| TextForms.DigestsShown | crates/ebpdns-proto/src/rdata.rs:814-846 | which bytes of DS, CDS, DNSKEY and CDNSKEY data become which field of the text |
| TextForms.CertificatesShown | crates/ebpdns-proto/src/rdata.rs:826-858 | the same for SSHFP and TLSA |
| TextForms.UriShown | crates/ebpdns-proto/src/rdata.rs:861-870 | the same for URI |
| TextForms.CaaShown | crates/ebpdns-proto/src/rdata.rs:797-811 | the same for CAA |
| TextForms.PlainShown | crates/ebpdns-proto/src/rdata.rs:1018-1156 | addresses need exactly 4 or 16 bytes; data of any type that is not known is shown in hexadecimal |
| TextForms.TooShort | crates/ebpdns-proto/src/rdata.rs:1018-1156 | data that overruns the message or ends before its fixed fields is dropped, type by type |
| TextForms.NamesShown | crates/ebpdns-proto/src/rdata.rs:116-200 | the fields of name, mail, service and authority records in their order |
| TextForms.TargetsShown | crates/ebpdns-proto/src/rdata.rs:611-618 | the fields of service bindings and address pointers, the root as a dot and the parameters in their order |
| TextForms.MxAlone | crates/ebpdns-proto/src/rdata.rs:1169-1184 | a lone name is read with the preference 10, a lone number as both |
| TextForms.FewFields | crates/ebpdns-proto/src/rdata.rs:1214-1273 | with too few fields the hexadecimal bytes of the text, or its own, are the data |
| TextForms.NumbersCut | crates/ebpdns-proto/src/rdata.rs:1234-1252 | the numbers of a service record are cut to 65535 |
| TextForms.PiecesJoined | crates/ebpdns-proto/src/rdata.rs:873-986 | digests, keys and certificates may be given in several pieces |
| TextForms.NamesFit | crates/ebpdns-proto/src/rdata.rs:1018-1156 | the names of a record have to be spelled out before its data ends; those of authority data are followed by exactly five numbers |
| TextForms.ParamsRefused | crates/ebpdns-proto/src/rdata.rs:657-730 | named parameters with a value where there must be none, without one where there must be one, and ports that are no 16-bit number are refused |
| TextForms.UnknownRefused | crates/ebpdns-proto/src/rdata.rs:657-687 | parameters of unknown names are refused |
| TextForms.NamedParam | crates/ebpdns-proto/src/rdata.rs:657-687 | a registered name with an equals sign and a value is read by the rules of that name |
| TextForms.TokensRefused | crates/ebpdns-proto/src/rdata.rs:734-1002 | texts with too few tokens, address pointers with any other number than six, and empty tags are refused |
| Messages.ParseQuestions | crates/ebpdns-proto/src/message.rs:68-84 | the question loop reads the specified questions or fails as specified |
| Messages.ParseSection | crates/ebpdns-proto/src/message.rs:114-162 | the section loop reads the specified records, skipping malformed data, or fails as specified |
| Messages.Parse | crates/ebpdns-proto/src/message.rs:48-112 | the whole message is read as specified |
| Messages.ParsedHeader | crates/ebpdns-proto/src/message.rs:48-112 | of every message that parses, identifier, flags, opcode, response code, TC, RD, RA and the counts are those of its first twelve bytes, with as many questions as announced and no more records |
| Messages.ParsedInside | crates/ebpdns-proto/src/message.rs:48-162 | a message that parses holds all that its counts announce, and is not read beyond its end |
| Messages.RecordWalked | crates/ebpdns-proto/src/message.rs:114-162 | a well-formed record anywhere in a message is read as its owner, type, class, time to live and parsed data, and left at its exact end |
| Messages.SectionWalked | crates/ebpdns-proto/src/message.rs:114-162 | a section of well-formed records is read as those records in order, and left at its exact end |
| Messages.QuestionWalked | crates/ebpdns-proto/src/message.rs:48-112 | a written question is read as its name, type and class, and left at its exact end |
| Edns.ScanName | crates/ebpdns-proto/src/edns.rs:55-92 | the name-skipping loop ends and stops where specified, at a root byte, a pointer, or the end |
| Edns.FindQuestionAndOpt | crates/ebpdns-proto/src/edns.rs:24-187 | question bytes, OPT bytes and clamped size as specified, for any byte string |
| Edns.FindOpt | crates/ebpdns-proto/src/edns.rs:107-180 | the loop over additional records keeps the last OPT record as specified |
| Edns.PaddingFillsBlock | crates/ebpdns-proto/src/edns.rs:267-294 | padding always reaches a multiple of 128, adds at least its own header, and the 512 limit never decides |
| Edns.PaddingContent | crates/ebpdns-proto/src/edns.rs:267-282 | the padding follows the other options under code 12 with its length, and is zero |
| Edns.SubnetWritten | crates/ebpdns-proto/src/edns.rs:206-260 | the bytes of the client-subnet option for any address with any prefix text or none: code, length, family, prefix cut to the address, and only as many address bytes as it needs |
| Edns.BuildQuery | crates/ebpdns-proto/src/query.rs:15-55 | the query bytes as specified, or the error for a name that cannot be encoded |
| Edns.PaddedQueryLength | crates/ebpdns-proto/src/query.rs:15-55 | every padded query is a whole number of 128-byte blocks |
| Edns.OptFound | crates/ebpdns-proto/src/edns.rs:107-180 | an OPT record at the end of a message is found whole |
| Edns.InfoOfQuery | crates/ebpdns-proto/src/edns.rs:24-187 | of every query that can be built the question bytes, the OPT bytes and the clamped size are recovered exactly |
| Edns.ExtractQname | crates/ebpdns-proto/src/query.rs:82-110 | the name bytes as specified, or none |
| Edns.QnameOfQuery | crates/ebpdns-proto/src/query.rs:82-110 | of every query that can be built exactly the encoded name is extracted, letter case included |
| Queries.QueryParses | crates/ebpdns-proto/src/query.rs:15-55 | every query that can be built parses to its last byte: the identifier given, RD as its only flag, one question with the labels of the domain, the type asked for and class 1, no records, and the OPT record whole with the size announced |
| Queries.OptAmong | crates/ebpdns-proto/src/edns.rs:24-187 | among any written records the last OPT record is found whole, with its size raised to 512 |
| Queries.InfoOfMessage | crates/ebpdns-proto/src/edns.rs:24-187 | of any message of uncompressed questions with records behind them the first question and the last OPT record are found whole |
| Queries.QnameIff | crates/ebpdns-proto/src/query.rs:82-108 | a name is extracted exactly when there is a question whose name is spelled without a pointer |
| Queries.EchoIff | crates/ebpdns-proto/src/query.rs:117-144 | a response passes the check against a query that was built exactly when it has one question with the very bytes of the name and, if it reaches that far, the type and class |
| Queries.ResponseEchoes | crates/ebpdns-proto/src/query.rs:117-144 | a response assembled for such a query, with its question, passes |
| Responses.FlagFields | crates/ebpdns-proto/src/response.rs:39-65 | opcode, RD and CD are copied from the query, QR and RA are set, TC and the response code are as given, and AA, AD and the reserved bit are clear |
| Responses.ChunkSize | crates/ebpdns-proto/src/response.rs:71-119 | an answer is left out exactly when its value cannot be encoded |
| Responses.BuildBodyAnswers | crates/ebpdns-proto/src/response.rs:71-119 | the loop writes the encodable answers in order and counts them |
| Responses.Assemble | crates/ebpdns-proto/src/response.rs:222-243 | the loop stops at the first answer that does not fit and reports whether one was dropped |
| Responses.BuildUdpResponse | crates/ebpdns-proto/src/response.rs:171-251 | the response bytes as specified |
| Responses.FittingIsLongest | crates/ebpdns-proto/src/response.rs:222-243 | taking answers until one does not fit gives the longest fitting prefix |
| Responses.LongestFitUnique | crates/ebpdns-proto/src/response.rs:222-243 | there is only one longest fitting prefix |
| Responses.KeptIsLongest | crates/ebpdns-proto/src/response.rs:171-251 | the answers kept are the longest fitting prefix of the encodable ones among the first eight |
| Responses.ResponseShape | crates/ebpdns-proto/src/response.rs:171-251 | header counts equal what follows, TC is set exactly when forced, above eight, or an answer was dropped, and the length is at most the limit unless header, question and OPT alone exceed it |
| Responses.ResponseHeader | crates/ebpdns-proto/src/response.rs:36-62 | every response, whichever way its answers come about, has the query's identifier, opcode, RD and CD, QR and RA set, AA and AD clear, the response code given, TC as stated, and the counts |
| Responses.ResponseMessage | crates/ebpdns-proto/src/response.rs:36-62 | every response that parses is read as an answer with that identifier, response code, opcode, RD, RA and TC |
| Responses.ReadyMadeUsed | crates/ebpdns-proto/src/response.rs:193-211 | a ready-made body is used exactly when there are at most eight answers and it fits the client's size and the server's own |
| Responses.ResponseParses | crates/ebpdns-proto/src/response.rs:171-251 | for a well-formed question, owner and OPT record the response parses to its last byte into that question and, for each answer kept, the record with its owner, type, time to live and encoded value; no authority, and the OPT record alone behind |
| Responses.ReadyMadeSame | crates/ebpdns-proto/src/response.rs:193-251 | a body encoded beforehand from the same answers gives the very response that encoding them one by one would give |
| SingleFlight.StartInv | crates/ebpdns-resolver/src/singleflight.rs:90-94 | an empty table satisfies the invariant |
| SingleFlight.StepInv | crates/ebpdns-resolver/src/singleflight.rs:132-161 | every step of every caller keeps the invariant tying callers, counts, cells and table together |
| SingleFlight.BehaviourInv | crates/ebpdns-resolver/src/singleflight.rs:132-161 | so does every interleaving |
| SingleFlight.OnePerCell | crates/ebpdns-resolver/src/singleflight.rs:132-161 | in every reachable state, per shared cell: at most one caller computes; all that returned have the cell's value; at most one is tagged leader, exactly the one that filled the cell; nobody computes once one has returned |
| SingleFlight.TableEmpties | crates/ebpdns-resolver/src/singleflight.rs:69-81 | once all callers are gone the table is empty |
| SingleFlight.FilledStays | crates/ebpdns-resolver/src/singleflight.rs:132-161 | a filled cell is never changed and no further computation begins on it |
| SingleFlight.LateCallerReads | crates/ebpdns-resolver/src/singleflight.rs:132-161 | a caller that comes while an entry with a filled cell is mapped shares it and can return its answer without computing |
| SingleFlight.LastUnmaps | crates/ebpdns-resolver/src/singleflight.rs:69-81 | a caller that leaves goes on to unmap the entry exactly when no other is counted on it |
| SingleFlight.CancelledCanRerun | crates/ebpdns-resolver/src/singleflight.rs:132-161 | after a cancelled computation any waiting caller can run it from the start and return as its leader |
| SingleFlight.NoneStuck | crates/ebpdns-resolver/src/singleflight.rs:132-161 | a waiting caller can always run, read, or has someone who can finish for it |
| SingleFlight.LeavingCanLeave | crates/ebpdns-resolver/src/singleflight.rs:69-81 | a leaving caller can always be discounted: the count never runs out before |
| SingleFlight.OnePerKey | crates/ebpdns-resolver/src/singleflight.rs:69-81 | under every interleaving in which no entry with an unfilled cell is unmapped while a caller still uses it, at most one caller computes for a key at a time |
| SingleFlight.OrphaningAllowsTwo | crates/ebpdns-resolver/src/singleflight.rs:69-81 | conversely, from every state in which such an unmapping can happen and one more caller may come, it can be followed by two computations of that key: the removal compares the entry but does not look at the count again |
| SingleFlight.TwoRunsOfOneKey | crates/ebpdns-resolver/src/singleflight.rs:69-81 | such an unmapping is reached, and two computations of one key after it: the concrete interleaving |
| SingleFlight.Flights.JoinEntry | crates/ebpdns-resolver/src/singleflight.rs:138-143 | finding or creating the entry is the join step |
| SingleFlight.Flights.AddRef | crates/ebpdns-resolver/src/singleflight.rs:144-149 | counting is the count step |
| SingleFlight.Flights.StartComputing | crates/ebpdns-resolver/src/singleflight.rs:152-160 | starting on an empty cell is the run step |
| SingleFlight.Flights.FillCell | crates/ebpdns-resolver/src/singleflight.rs:152-160 | filling the cell is the finish step |
| SingleFlight.Flights.ReadCell | crates/ebpdns-resolver/src/singleflight.rs:152-160 | taking the value of a filled cell is the read step |
| SingleFlight.Flights.GiveUp | crates/ebpdns-resolver/src/singleflight.rs:152-160 | dropping the future is the cancel step |
| SingleFlight.Flights.DropRef | crates/ebpdns-resolver/src/singleflight.rs:69-81 | discounting is the uncount step, the last one going on to unmap |
| SingleFlight.Flights.RemoveEntry | crates/ebpdns-resolver/src/singleflight.rs:69-81 | unmapping takes out the caller's own generation of the entry only |
| Breaker.SharedCircuit.RecordFail | crates/ebpdns-resolver/src/breaker.rs:97-124 | the upstream's fields change as specified, no other upstream's do |
| Breaker.SharedCircuit.RecordOk | crates/ebpdns-resolver/src/breaker.rs:127-133 | the failures and the opening of that upstream are forgotten |
| Breaker.SharedCircuit.RecordProbeOk | crates/ebpdns-resolver/src/breaker.rs:138-147 | the circuit recovers, and whether there was anything to recover from is reported |
| Breaker.SharedCircuit.RecordProbeFail | crates/ebpdns-resolver/src/breaker.rs:152-157 | only the probe count of that upstream changes, and is reported |
| Breaker.SharedCircuit.IsOpen | crates/ebpdns-resolver/src/breaker.rs:160-165 | open exactly while the deadline of a known upstream lies ahead |
| Breaker.SharedCircuit.NoteAllOpen | crates/ebpdns-resolver/src/breaker.rs:185-188 | the counter goes up by one, the given upstreams are remembered |
| Breaker.SharedCircuit.Retain | crates/ebpdns-resolver/src/breaker.rs:213-215 | exactly the upstreams to keep remain, unchanged |
| Breaker.SharedCircuit.Clear | crates/ebpdns-resolver/src/breaker.rs:219-225 | no upstream, no count and no remembered list is left |
| Breaker.CountsKept | crates/ebpdns-resolver/src/breaker.rs:97-225 | over any sequence of events, whatever the settings and times, the failure count is the number of failures since the upstream last recovered or was forgotten, and the back-off level the number of those that reached the threshold while it was not open (both capped) |
| Breaker.ProbesCounted | crates/ebpdns-resolver/src/breaker.rs:138-225 | the probe counts are the numbers of good and of bad probes since the upstream was last forgotten, capped at 64 bits; a recovery does not reset them |
| Breaker.RunSound | crates/ebpdns-resolver/src/breaker.rs:97-225 | over any sequence of events with time moving forward a back-off level of zero means no deadline, and with positive opening times only then |
| Breaker.WindowDoubles | crates/ebpdns-resolver/src/breaker.rs:97-124 | the bit-shift window is open_s times 2 to the power min(level-1, 4), capped by the larger of open_s and the maximum, and open_s itself where that is not positive |
| Breaker.FailureOpensIff | crates/ebpdns-resolver/src/breaker.rs:97-124 | after any sequence of events a failure that reaches the threshold sets the deadline that its settings give for the number of openings, and leaves the circuit open if and only if its opening time is positive |
| Breaker.FewFailuresKeep | crates/ebpdns-resolver/src/breaker.rs:97-124 | after any sequence of events a failure below the threshold changes nothing but the count |
| Breaker.RunDated | crates/ebpdns-resolver/src/breaker.rs:97-225 | over any sequence of events, whatever the settings, the deadline of an upstream with a back-off level is the window of that level after one of its own past failures |
| Breaker.DeadlineNeverBack | crates/ebpdns-resolver/src/breaker.rs:97-225 | over any sequence of events whose settings have positive opening times and never make a window shorter, the deadline moves back only when that upstream recovers or is forgotten |
| Breaker.SettingsMoveBackIff | crates/ebpdns-resolver/src/breaker.rs:97-124 | changing from one setting to another can move a deadline back, in some sequence of events, if and only if a window of the new one is shorter at some level |
| Breaker.DeadlineBackIff | crates/ebpdns-resolver/src/breaker.rs:97-124 | whatever the settings, the deadline moves back, other than on recovery or forgetting, if and only if a failure reaches the threshold and its time plus the window for the number of openings comes sooner |
| Breaker.ShorterWindowMovesBack | crates/ebpdns-resolver/src/breaker.rs:97-124 | two failures under a shrinking opening time after which it has: the concrete input |
| Breaker.OthersDoNotMatter | crates/ebpdns-resolver/src/breaker.rs:97-215 | probe failures, events of other upstreams, and reloads that keep the upstream, leave a circuit as open or closed as it was at every time |
| Breaker.ResetCloses | crates/ebpdns-resolver/src/breaker.rs:127-225 | a success, a good probe, a reload without the upstream and a clear leave its circuit closed at every time |
| Rfc8020.Rfc8020Domains.Register | crates/ebpdns-resolver/src/rfc8020.rs:93-135 | the table changes as specified; above the limit entries are taken out, earliest expiry first, down to three quarters of it |
| Rfc8020.Rfc8020Domains.EvictOldest | crates/ebpdns-resolver/src/lib.rs:486-496 | the entries expiring first are taken out until the target is met |
| Rfc8020.Rfc8020Domains.LookUp | crates/ebpdns-resolver/src/rfc8020.rs:140-195 | the loop over the label boundaries gives the specified answer and deletion |
| Rfc8020.Rfc8020Domains.Clear | crates/ebpdns-resolver/src/rfc8020.rs:201-203 | nothing is left |
| Rfc8020.SearchFirst | crates/ebpdns-resolver/src/rfc8020.rs:140-195 | the loop finds the answer of the first boundary that has one, and what it drops has none |
| Rfc8020.FirstAnswerIff | crates/ebpdns-resolver/src/rfc8020.rs:140-195 | there is a first answer if and only if some boundary has one |
| Rfc8020.ChainIsBoundaries | crates/ebpdns-resolver/src/rfc8020.rs:140-195 | the names looked at are exactly the name and what follows one of its dots |
| Rfc8020.HitIff | crates/ebpdns-resolver/src/rfc8020.rs:140-195 | a lookup hits if and only if the name or one of its suffixes at a label boundary has an entry of the current rules, within the depth limit, live or inside the stale window |
| Rfc8020.LookupExact | crates/ebpdns-resolver/src/rfc8020.rs:140-195 | the hit is that of the nearest boundary that answers, live with the time left or stale with none; exactly the last entry passed before it is deleted; too deep a name is not looked up |
| Rfc8020.RegisterOnlyBelow | crates/ebpdns-resolver/src/rfc8020.rs:93-135 | registering a name changes no answer for ancestors and siblings, and makes none of them match even when room is made |
| Rfc8020.RegisterStores | crates/ebpdns-resolver/src/rfc8020.rs:93-135 | an admissible registration stores the later expiry under equal rules and the new one otherwise, and reports a change exactly when the entry is new, of other rules or prolonged; any other does nothing |
| Rfc8020.RegisterFound | crates/ebpdns-resolver/src/rfc8020.rs:93-195 | until it expires a registered name answers for itself, live and with at least its time left, and for every name below it |
| Rfc8020.RegisteredHits | crates/ebpdns-resolver/src/rfc8020.rs:93-195 | so it does over any sequence of lookups and registrations under one rule set in which no room has to be made |
| Rfc8020.LateStays | crates/ebpdns-resolver/src/lib.rs:486-496 | making room keeps an entry unless as many others as are kept expire no earlier |
| Rfc8020.LookupAgrees | crates/ebpdns-resolver/src/rfc8020.rs:140-195 | a table that deleted unanswerable entries gives the same answers as one that did not |
| Rfc8020.RegisterAgrees | crates/ebpdns-resolver/src/rfc8020.rs:93-135 | a registration that need not make room does the same to both |
| Rfc8020.DeletionsNeverMissed | crates/ebpdns-resolver/src/rfc8020.rs:93-195 | over any sequence of lookups and registrations under one rule set in which no room has to be made, every answer is that of a table that deletes nothing |
| Rfc8020.LossesAddNoHits | crates/ebpdns-resolver/src/rfc8020.rs:93-195 | over any sequence whatsoever, making room and changing settings included, nothing that is deleted or evicted creates a hit that a table losing nothing would not have given |
| Rfc8020.EarliestExists | crates/ebpdns-resolver/src/lib.rs:486-496 | a non-empty table has an entry that expires no later than all others |

## Left out

- Replay.JournalRebuildsMemory: for sequential operations and a journal that loses nothing; overflow of the journal's queue with its resynchronisation, exchanging the policy under a running shell, and a deletion or resize racing with other calls (their events are queued after the cache lock is released) are not covered.
- Rfc8020.DeletionsNeverMissed: for sequences in which no room has to be made, as making room takes out live entries on purpose; `Rfc8020.LossesAddNoHits` is for all sequences.
- Rfc8020.RegisterAgrees: the registration before any room is made.
- Journals.CacheJournal.Send: the queue is unbounded; the bounded ring with its drop count and resynchronisation is not modelled.
- Partitions.PartitionedCache.constructor: names are given, distinct and in name order; the default list of partitions is not modelled.
- Names.EncodeName: names outside ASCII are refused; their IDNA mapping is not modelled.
- Responses.ResponseShape: for responses not built around a ready-made answer body; by `Responses.ReadyMadeSame` it carries over to those whose body is current.
- Responses.ResponseParses: likewise. What the data of a record parses to is stated where it stands in the response, since data given as raw hexadecimal may hold compression pointers.
- Allocation.LargestRemainder: with real arithmetic; rounding of floating-point quotas is not modelled.
- Allocation.NormaliseCorrect: with real arithmetic.
- Allocation.Allocate: with real arithmetic.
- Allocation.SmallShares: with real arithmetic.
- Allocation.WithinTotalIff: with real arithmetic.
- TinyRuns.SegmentsStayDisjointAndBounded: for the default ratio of the segments; other ratios exist for benchmarks only.
- Breaker.DeadlineNeverBack: for positive opening times; `Breaker.DeadlineBackIff` is for all.
- Breaker.SettingsMoveBackIff: for positive opening times, finite values only.
- SingleFlight.CancelledCanRerun: any waiting caller may go next, where the cell hands on in queue order.
- SingleFlight.StepInv: the once-cell enters through its steps only (one initialiser at a time, an abandoned one leaves it empty); the asynchronous runtime is not part of the model.
- The text of IPv4 and IPv6 addresses: a parameter with printing and parsing assumed to be inverse.
- Widths of counters that cannot overflow in practice (sequence numbers, miss and put counters): unbounded. Sketch cells saturate at 255 and breaker counters at 2^32-1, as in the source.
- Entry equality that ignores the sequence number: entries are compared with it.
- Recovering an LRU or partitioned cache from records, snapshots and their printing, the legacy JSON restore, generations and file-level failure records, and statistics.
- Files of the persistence layer other than the journal's queue, the resolver proper, the rule engine, the configuration and the network: not part of this model.
- Locks: each method is one atomic step, except in single-flight, where every step between two lock operations is a step of its own.
