# Cache models and their proofs

A Dafny model of the GPGPU-Sim reference cache, its texture cache, its address
mapping and set hashing, gem5's load-locked list, the bubble-carrying delay FIFO
and the configuration string of the deprecated cache, with proofs of what they
promise. `dafny verify dfyconfig.toml` checks everything.

## How it is organised

Each part has a specification on values (functions over datatypes, where `None`
stands for a failed assertion of the original), lemmas about it, and, where the
original updates objects, a class whose methods are proved to carry out the
specification step by step.

- **Data and read-only caches.** `CacheTypes`, `TagArrays` (lines, probe,
  access, fill), `CacheModel` (every handler of every write policy),
  `CacheAdmission` (rejection and capacity, for all policies), `CacheLines`,
  `CacheInvariant`, `CacheReads`, `CacheSteps`, `CacheOperations`,
  `CacheReturns` (the state invariant and each step that keeps it), `CacheCore`
  (what every policy keeps), `CacheEffects` (all handlers in one closed form),
  `CacheAcceptance` (when a request is accepted), `CacheDurability`, `CacheTraffic`,
  `CacheRuns`, `CacheGuarantees`, `CacheProvenance` (whole runs: no failed assertion,
  exactly-once delivery, order, no lost write and no invented one, draining),
  `CacheReplacement`, `CacheReadability`, `CacheWriteBacks`, `CacheAnswers` (whole runs,
  told from their events: who is replaced, what hits, what is written back, when and in
  what order requests are answered), `CachePolicies` (what the remaining policies break,
  and exactly when), `RunSteps`, `FetchOnWriteRuns`, `MixedRuns`, `LineRuns` (runs in
  which they do), `Caches` (the classes).
- **Texture cache.** `CircularFifo`, `TexModel` (the replay invariant),
  `TexRuns` (order over runs, draining), `TexHits` (what hits, and when a block is
  fetched again), `TexCache` (the class).
- **Set hashing.** `Ipoly`: the equations as polynomial remainders, and conflict
  freedom.
- **DRAM address mapping.** `MaskPacking` (bit gathering and the small loops),
  `AddressMap` (decoding), `AddressConfig` (init), `AddressUniqueness`
  (consecutive channels do not alias), `AddressHashing` (hashed channels: exactly
  when they do), `AddressGaps` (hashing over other channel counts),
  `AddressAliases` (configurations that alias), `AddressDecode` (coordinates are
  one-to-one), `AddressFields` (what each address bit counts), `AddressDecoders` (the class and the option parser).
- **Others.** `LockList` (LL/SC), `DelayFifo`, `ConfigString`.
- **Helpers.** `Options`, `Arithmetic`, `Words`.

## The invariants of the caches

`CacheCore.CoreInv` holds under every write policy and every allocation policy: pin
counts, the addresses of pinned lines, MSHR entries, saved records, the accounts of
pending responses and all sizes. `CacheInvariant.CacheInv` is stronger. It says, for the
covered policies, which are READ_ONLY, and WRITE_BACK and WRITE_THROUGH with
NO_WRITE_ALLOCATE, WRITE_ALLOCATE or (SECTOR) LAZY_FETCH_ON_READ, that

- each set holds a block at most once, and the dirty counter is the number of
  modified lines;
- each line's pin count is the number of pending responses recorded for it, and
  it holds their block;
- each MSHR entry lists distinct pending reads of its sector; the saved records
  are in bijection with the entries not marked ready, and name the pinned line
  of the block; each RESERVED sector has exactly one such entry; the sector of a
  ready entry is readable;
- each pending response is in exactly one of the hit queue, the ready queue and
  the MSHR lists;
- queues and MSHRs are within their sizes.

A run is a sequence of accesses, cycles, fills and collected responses. The lower
level may refuse in any cycle and fills only what it was sent, in any order. No request
is larger than a sector of a SECTOR cache or a line of a NORMAL one.
Times lie below `2^32 - 1`, the value probe starts its search from; fetches
passed in are new, and the byte mask of a fetch lies in its sector.

## Findings

FETCH_ON_WRITE, WRITE_EVICT and LOCAL_WB_GLOBAL_WT do not keep the stronger invariant,
and can lose accepted writes:

- `wr_hit_we` does not adjust the dirty counter. The counter stays exact if and only
  if the hit sector was not the line's only MODIFIED one
  (`CachePolicies.WriteEvictKeepsCountExactlyWhen`).
- `wr_hit_we` drops the dirty bytes of its sector that the evicting write does not write
  itself (`CacheDurability.AccessDropsExactlyWhen`). `MixedRuns.LocalWriteIsLost` is a run
  of LOCAL_WB_GLOBAL_WT in which an accepted local write is lost that way.
- `wr_hit_we` also invalidates a sector that still has an MSHR entry, one filled but
  not yet collected. Entries and RESERVED sectors stay consistent if and only if the
  sector has none (`CachePolicies.WriteEvictKeepsEntriesExactlyWhen`). In the run
  `MixedRuns.AnsweredWithoutFetch` a later read is answered although nothing was fetched
  for it, and with all queues empty its way is still RESERVED; the next read of the block
  then fetches it (`MixedRuns.NextReadFetches`).
- `fill` does not consult the ignore-on-fill flag: it turns a MODIFIED sector into a VALID
  one unless modified-on-fill is set (`CacheDurability.FillDropsExactlyWhen`). Under
  FETCH_ON_WRITE this loses a full-sector store into a RESERVED sector and every store
  that hits it before the fill; a partial store whose fetch merges into an entry loses the
  bytes that were neither marked before nor asked for by the request being filled
  (`CachePolicies.StoreSurvivesFillExactlyWhen`). The runs are
  `FetchOnWriteRuns.AcceptedStoreIsLost` and `FetchOnWriteRuns.SecondStoreIsLost`.
- A WRITE_THROUGH cache with FETCH_ON_WRITE sends no store down that misses
  (`CacheDurability.WriteThroughCarriesExactlyWhen`), and writes no line back: the store
  is lost when its line is taken (`FetchOnWriteRuns.ThroughStoreIsLost`).
- These are all the ways (`CacheGuarantees.AcceptedWriteIsLostOnlyWhen`).
- The overload of `tag_array::fill` that takes a line index never lowers the dirty counter,
  so the full-sector store above also leaves it stale
  (`CachePolicies.FillKeepsCountExactlyWhen`).

Lines that are not sectored:

- A NORMAL line that is allocated anew keeps the dirty mask of the block it held, so its
  write-back names bytes nobody wrote to it (`LineRuns.WholeLineNamesStrayBytes`). Sectored
  lines do not (`CacheProvenance.WriteBacksNameWrittenBytes`).
- LAZY_FETCH_ON_READ over NORMAL lines, which `cache_config::init` accepts, fails an
  assertion when it reads a line partly written (`LineRuns.LazyLineFails`). Nothing else
  under any policy fails one (`CacheCore.AccessFailsExactlyWhen`).

Hashed channel numbers can send two addresses to one location:

- The bitwise permutation does so if and only if some channel bit is hashed with itself
  (`AddressHashing.PermutationSeparatesExactlyWhen`). That needs a mapping option which
  names the channel bits one by one, such as that of `AddressAliases.PermutationAliases`.
- IPOLY with the channel bits in a hole does so if and only if the hash of some nonempty
  set of sub-partition bits has only zeros among its log2(subs) low bits
  (`AddressHashing.IpolySeparatesExactlyWhen`); however the channel bits are given, if and
  only if some nonzero difference in channel and sub-partition bits has hash zero
  (`AddressHashing.IpolySeparatesExactlyWhenSeen`). Built-in configurations do
  (`AddressAliases.IpolyAliases`).
- IPOLY over a channel count that is no power of two always does
  (`AddressGaps.IpolyWithGapAliases`).

Others:

- `next_powerOf2` is right only for 2 <= n <= 2^31 (`MaskPacking.NextPow2IsLeast`);
  for one channel it gives 0, so IPOLY indexing then fails its assertion on every
  address (`AddressHashing.OneChannelNeverDecodes`).
- A store-conditional that fails still clears the intersecting locks of other
  contexts (`LockList.StoreConditionalsNeedReservations`).
- The configuration string prints RANDOM and PLRU replacement as FIFO, and the
  texture MSHR types as SECTOR_ASSOC (`ConfigString.ParseOfPrint`).

## Model

| member | source | states |
|---|---|---|
| TagArrays.ProbeMissPicksVictim | gpgpusim_cache/gpgpu_cache/gpu_cache_ref.cc:274-368 | a MISS names an unpinned, unreserved way allowed by the dirty limit, no way of the set holds the block, and the way is an invalid one if an eligible invalid one exists and otherwise has the least LRU or FIFO time |
| TagArrays.ProbeFailsIffNoWay | gpgpusim_cache/gpgpu_cache/gpu_cache_ref.cc:303-364 | RESERVATION_FAIL exactly when no way holds the block and none is eligible; hence the abort() after the search is unreachable while times stay below the search's sentinel |
| TagArrays.ProbeBreaksTies | gpgpusim_cache/gpgpu_cache/gpu_cache_ref.cc:303-364 | among eligible INVALID ways the last one is named, among equally old ones the first |
| TagArrays.TagArray.Probe | gpgpusim_cache/gpgpu_cache/gpu_cache_ref.cc:274-368 | the search loop over the ways computes the specified first match, last invalid way and oldest way, and changes nothing |
| TagArrays.TagArray.Access | gpgpusim_cache/gpgpu_cache/gpu_cache_ref.cc:379-435 | the whole new tag array, including the eviction record, the dirty counter and which of allocate and allocate_sector ran |
| TagArrays.TagArray.Fill | gpgpusim_cache/gpgpu_cache/gpu_cache_ref.cc:474-482 | one line is filled and the counter grows exactly if the line became modified |
| CacheTypes.CacheBlock.Allocate | gpgpusim_cache/gpgpu_cache/gpu_cache_ref.h:195-209 | new contents of the line; a SECTOR line forgets its old sectors and bytes, a NORMAL line keeps its mask and readable bit |
| CacheTypes.CacheBlock.AllocateSector | gpgpusim_cache/gpgpu_cache/gpu_cache_ref.h:370-396 | one more sector RESERVED, modified-on-fill exactly if it was MODIFIED, the rest of the line kept |
| CacheTypes.CacheBlock.Fill | gpgpusim_cache/gpgpu_cache/gpu_cache_ref.h:397-413 | the sector becomes MODIFIED or VALID by modified-on-fill, readable if it was to be, and the fetched bytes are marked dirty only if asked for |
| CacheLines.AtomAddrInjective | gpgpusim_cache/gpgpu_cache/gpu_cache_ref.h:870-875 | two sectors of resident blocks never share an MSHR address |
| CacheLines.ProbeFinds | gpgpusim_cache/gpgpu_cache/gpu_cache_ref.cc:274-320 | a resident block is found at its own line whatever the other ways hold, and answered from its own sector |
| CacheLines.ProbeIsRight | gpgpusim_cache/gpgpu_cache/gpu_cache_ref.cc:274-368 | any answer but MISS and RESERVATION_FAIL is about the line that holds the block; those two mean that no line does |
| CacheLines.AccessKeepsTags | gpgpusim_cache/gpgpu_cache/gpu_cache_ref.cc:379-435 | each set keeps at most one non-INVALID line per tag, and the dirty counter stays the number of lines with a MODIFIED sector, across eviction and sector re-allocation |
| CacheLines.WriteKeepsTags | gpgpusim_cache/gpgpu_cache/gpu_cache_ref.cc:1544-1560 | the same for the inc_dirty of a write into a resident line |
| CacheLines.FillKeepsTags | gpgpusim_cache/gpgpu_cache/gpu_cache_ref.cc:474-482 | the same for modified-on-fill; it needs that a sector already MODIFIED is to be modified on fill |
| CacheAdmission.ReprobeAgrees | gpgpusim_cache/gpgpu_cache/gpu_cache_ref.cc:1465-1512 | the probe inside tag_array::access gives the answer of the probe made before |
| CacheAdmission.SendReadCompletes | gpgpusim_cache/gpgpu_cache/gpu_cache_ref.cc:1465-1512 | do_miss is true and the assert(0) fall-through unreachable whenever the MSHR guard held |
| CacheAdmission.RejectionHasNoEffect | gpgpusim_cache/gpgpu_cache/gpu_cache_ref.cc:1631-1992 | for every write-hit, write-miss and read-only policy: RESERVATION_FAIL leaves the complete state unchanged |
| CacheAdmission.AddKeepsCapacity | gpgpusim_cache/gpgpu_cache/gpu_cache_ref.cc:621-634 | adding to the MSHRs after a successful guard exceeds neither the entries nor the merge limit |
| CacheAdmission.AccessKeepsCapacity | gpgpusim_cache/gpgpu_cache/gpu_cache_ref.cc:1996-2129 | for every policy, the miss queue, the MSHR entries and merges and the hit queue stay within their configured sizes: the worst case is reserved before anything is queued |
| CacheAdmission.AccessGrowsQueue | gpgpusim_cache/gpgpu_cache/gpu_cache_ref.cc:1504-1541 | an access only appends to the miss queue |
| CacheReads.EntryIsResident | gpgpusim_cache/gpgpu_cache/gpu_cache_ref.cc:606-634 | while an address has an MSHR entry, the line pinned by its first request holds the block, is what a search finds, and waits for data exactly until the entry is marked ready |
| CacheReads.ProbeTellsEntry | gpgpusim_cache/gpgpu_cache/gpu_cache_ref.cc:2051-2129 | after MISS there is no entry, after HIT_RESERVED there is one, and a request that did not hit never meets an entry already marked ready: nothing is merged into a ready entry |
| CacheSteps.SendReadKeepsInv | gpgpusim_cache/gpgpu_cache/gpu_cache_ref.cc:1465-1512 | a read sent down keeps the invariant: record, MSHR entry, pin and RESERVED sector are created together or joined together |
| CacheSteps.EnqueueKeepsInv | gpgpusim_cache/gpgpu_cache/gpu_cache_ref.cc:1292-1313 | a delayed hit response keeps pins and accounts exact |
| CacheOperations.WriteHitKeepsInv | gpgpusim_cache/gpgpu_cache/gpu_cache_ref.cc:1544-1560 | a write-back hit keeps the invariant and fails no assertion |
| CacheOperations.LazyMissKeepsInv | gpgpusim_cache/gpgpu_cache/gpu_cache_ref.cc:1844-1909 | so does a lazy write miss, including one into a sector whose fetch is outstanding |
| CacheOperations.WriteAllocateKeepsInv | gpgpusim_cache/gpgpu_cache/gpu_cache_ref.cc:1631-1711 | so does a write miss that allocates and fetches, with its own new fetch |
| CacheOperations.ReadMissKeepsInv | gpgpusim_cache/gpgpu_cache/gpu_cache_ref.cc:1956-1992 | so does a read miss, with or without an eviction |
| CacheOperations.AccessKeepsInv | gpgpusim_cache/gpgpu_cache/gpu_cache_ref.cc:1996-2129 | in a state with the invariant no assertion of access() fails, the one on the data size of the request being the caller's to meet, and the invariant holds afterwards |
| CacheReturns.CycleKeepsInv | gpgpusim_cache/gpgpu_cache/gpu_cache_ref.cc:1341-1368 | cycle() keeps the invariant; its assertion on the remaining cycles never fails |
| CacheReturns.FillFindsItsLine | gpgpusim_cache/gpgpu_cache/gpu_cache_ref.cc:1370-1400 | the line index saved at miss time still names the line of that block, pinned and waiting, and the entry of the fetch is not yet ready: fills land on the right line |
| CacheReturns.FillKeepsInv | gpgpusim_cache/gpgpu_cache/gpu_cache_ref.cc:1370-1415 | the fill of any outstanding fetch fails no assertion and keeps the invariant |
| CacheReturns.NextKeepsInv | gpgpusim_cache/gpgpu_cache/gpu_cache_ref.cc:1298-1327 | a response leaves with exactly its own pin given back |
| CacheReturns.InitialCacheInv | gpgpusim_cache/gpgpu_cache/gpu_cache_ref.cc:205-247 | the constructed cache satisfies the invariant |
| CacheCore.TagsAreTaken | gpgpusim_cache/gpgpu_cache/gpu_cache_ref.cc:379-435 | tag_array::access fails its assertion exactly when a read finds a whole line modified and unreadable; otherwise it changes the probed line only, keeps every pin, and renames no pinned line |
| CacheCore.SendKeepsCore | gpgpusim_cache/gpgpu_cache/gpu_cache_ref.cc:1465-1512 | under every policy a read sent down, or merged into an entry even if that is ready, keeps pins, entries, saved records and accounts exact |
| CacheCore.AccessFailsExactlyWhen | gpgpusim_cache/gpgpu_cache/gpu_cache_ref.cc:1465-2129 | for every write policy and allocation policy: access() fails an assertion if and only if the request is a read that misses on a whole line MODIFIED but unreadable and has room to be sent, which only LAZY_FETCH_ON_READ over NORMAL lines can bring about; every other request keeps pins, MSHR entries, saved indices and accounts exact |
| CacheCore.CycleKeepsCore | gpgpusim_cache/gpgpu_cache/gpu_cache_ref.cc:1341-1368 | cycle() fails no assertion under any policy and keeps the same |
| CacheCore.FillFindsItsPin | gpgpusim_cache/gpgpu_cache/gpu_cache_ref.cc:1370-1400 | under every policy the saved line index names a line pinned for the fetch that still bears its address, and the entry is not ready |
| CacheCore.FillKeepsCore | gpgpusim_cache/gpgpu_cache/gpu_cache_ref.cc:1370-1415 | the fill of any outstanding fetch fails no assertion under any policy |
| CacheCore.NextKeepsCore | gpgpusim_cache/gpgpu_cache/gpu_cache_ref.cc:1298-1327 | nor does a delivery, which gives back exactly its own pin |
| CacheAcceptance.AcceptedExactlyWhen | gpgpusim_cache/gpgpu_cache/gpu_cache_ref.cc:1465-2129 | for every policy: access() accepts a request if and only if it does not come to the one failing assertion and has room: for a hit a place in the hit queue, and in the miss queue if the write goes down; otherwise what its policy asks for: a way of its set that bears the block or is unpinned, unreserved and clean or over the dirty limit, places in the miss queue, and merge room in the entry of its address or a free entry |
| CacheAcceptance.RefusedIsAcceptedLater | gpgpusim_cache/gpgpu_cache/gpu_cache_ref.cc:1329-2129 | a request refused in any reachable state is accepted after some draining steps, if the miss queue has three places, the hit queue and the MSHRs one, and the drained set has a way that is not modified or the dirty limit is reached |
| CacheReplacement.VictimIsOldest | gpgpusim_cache/gpgpu_cache/gpu_cache_ref.cc:274-435 | over any run from the constructed cache with increasing times, under every policy, told from the events alone: when a MISS is given a way that is not INVALID, every other way it might have been given was, under LRU, used by an accepted access later, and under FIFO given to its block later; used by hits, merges and sector misses too, but not by write-evict hits or misses that allocate nothing |
| CacheEffects.AccessEffect | gpgpusim_cache/gpgpu_cache/gpu_cache_ref.cc:1465-2129 | every handler at once, the read-only ones included: an accepted request replaces the probed line by one given line, queues the write, its fetch and the write-back of the victim, in that order and each exactly when due, and records its fetch with that line |
| CacheDurability.AccessDropsExactlyWhen | gpgpusim_cache/gpgpu_cache/gpu_cache_ref.cc:1544-2129 | under every policy: after an accepted access a dirty byte is still dirty in its line or in a queued packet if and only if the access is neither a write hit that evicts the byte's sector without writing it nor an allocation of a write-through cache that takes its line |
| CacheDurability.AccessSavesDirty | gpgpusim_cache/gpgpu_cache/gpu_cache_ref.cc:1544-2129 | the first half of that also where a block may be in two lines |
| CacheDurability.AcceptedWriteIsSaved | gpgpusim_cache/gpgpu_cache/gpu_cache_ref.cc:1544-1929 | under every policy, every byte of a write that was not rejected is afterwards dirty in the line of its block or carried by a queued packet, or comes with the fetch the write sent; all but a partial FETCH_ON_WRITE store whose fetch merged into an entry |
| CacheDurability.WriteThroughCarriesExactlyWhen | gpgpusim_cache/gpgpu_cache/gpu_cache_ref.cc:1563-1929 | under WRITE_THROUGH a byte of a write that was not rejected is carried by a packet if and only if the write hit or the allocation policy is not FETCH_ON_WRITE |
| CacheDurability.FillDropsExactlyWhen | gpgpusim_cache/gpgpu_cache/gpu_cache_ref.cc:1370-1415 | a fill keeps a dirty byte if and only if the byte is not in the filled sector, or that sector is not MODIFIED, or modified-on-fill is set |
| CacheDurability.FillSavesDirty | gpgpusim_cache/gpgpu_cache/gpu_cache_ref.cc:1370-1415 | the first half of that also where a block may be in two lines |
| CacheDurability.CoveredDropsNothing | gpgpusim_cache/gpgpu_cache/gpu_cache_ref.cc:1370-2129 | under the covered policies no fill drops a byte, and no access of a write-back cache does |
| CacheDurability.ArrivalIsResident | gpgpusim_cache/gpgpu_cache/gpu_cache_ref.cc:1763-1842 | the fill of a partial FETCH_ON_WRITE store's own fetch makes its bytes dirty |
| CacheDurability.AccessKeepsArriving | gpgpusim_cache/gpgpu_cache/gpu_cache_ref.cc:1544-2129 | until then no access undoes what the fill needs, but one that drops the byte |
| CacheDurability.NextSavesDirty | gpgpusim_cache/gpgpu_cache/gpu_cache_ref.cc:1315-1327 | a delivery loses no dirty byte |
| CacheTraffic.AccessTracks | gpgpusim_cache/gpgpu_cache/gpu_cache_ref.cc:1465-2129 | an access owes its requester exactly the response it reports, and records a fetch exactly when it queues one |
| CacheRuns.StepKeepsInv | gpgpusim_cache/gpgpu_cache/gpu_cache_ref.cc:1315-2129 | under every policy, every cycle, fill of a sent fetch and collected response is possible, an access exactly when access() does not fail, and each keeps the system invariant, with a lower level that may refuse |
| CacheRuns.StepKeepsCovered | gpgpusim_cache/gpgpu_cache/gpu_cache_ref.cc:1315-2129 | under the covered policies every event also keeps the lines, the MSHR entries and the dirty counter consistent |
| CacheRuns.RunFailsExactlyWhen | gpgpusim_cache/gpgpu_cache/gpu_cache_ref.cc:1315-2129 | under every policy, a run fails an assertion if and only if it comes to the read described above, hence never but for LAZY_FETCH_ON_READ over whole lines |
| CacheRuns.EveryRunIsSound | gpgpusim_cache/gpgpu_cache/gpu_cache_ref.cc:1292-2129 | over any run under any policies but those no assertion fails; at its end the responses owed are the disjoint sum of those delivered and those pending (exactly-once delivery), every pending one has its line pinned under its address, every outstanding fetch is queued or below, and packets leave in queue order |
| CacheRuns.MergedInArrivalOrder | gpgpusim_cache/gpgpu_cache/gpu_cache_ref.cc:661-673 | under every policy, what remains in an MSHR entry was accepted after the request next_access hands out |
| CacheGuarantees.NoAcceptedWriteIsLost | gpgpusim_cache/gpgpu_cache/gpu_cache_ref.cc:1370-1929 | over any run under the covered policies, from any accepted write on, each of its bytes is dirty in the resident line of its block or carried by the byte and sector masks of a packet queued since |
| CacheGuarantees.AcceptedWriteIsLostOnlyWhen | gpgpusim_cache/gpgpu_cache/gpu_cache_ref.cc:1370-2129 | over any run under any policies, from any accepted write on, each of its bytes is dirty in its line, carried by a packet queued since, or to come with the write's own fetch, unless that fetch merged into an entry or the run contains one of the accesses or fills that drop the byte, each of which is told from the state before it; in a drained cache nothing is still to come |
| CacheGuarantees.SomeStepDrains | gpgpusim_cache/gpgpu_cache/gpu_cache_ref.cc:1315-1415 | while anything is pending, a step of a collecting client or of a willing lower level is enabled and strictly lowers a natural-number measure |
| CacheGuarantees.DrainsCompletely | gpgpusim_cache/gpgpu_cache/gpu_cache_ref.cc:1329-1333 | under every policy, from every reachable state such steps reach queues_empty(), where everything owed was delivered and no line is pinned; under the covered policies no sector is RESERVED either |
| CacheGuarantees.EmptyIsIdle | gpgpusim_cache/gpgpu_cache/gpu_cache_ref.cc:1329-1339 | queues_empty() alone implies that everything was delivered and no line is pinned, and under the covered policies that none is RESERVED |
| CachePolicies.WriteEvictKeepsCountExactlyWhen | gpgpusim_cache/gpgpu_cache/gpu_cache_ref.cc:1592-1611 | wr_hit_we keeps the dirty counter exact if and only if the hit sector was not the line's only MODIFIED one |
| CachePolicies.FillKeepsCountExactlyWhen | gpgpusim_cache/gpgpu_cache/gpu_cache_ref.cc:474-482 | from an exact counter, tag_array::fill keeps it exact if and only if the filled sector was not the line's only MODIFIED one without modified-on-fill |
| CachePolicies.WriteEvictKeepsEntriesExactlyWhen | gpgpusim_cache/gpgpu_cache/gpu_cache_ref.cc:1592-1611 | after wr_hit_we every RESERVED sector has its waiting MSHR entry and every entry its line if and only if the hit sector had no entry, ready ones included |
| CachePolicies.PartialStoreMerges | gpgpusim_cache/gpgpu_cache/gpu_cache_ref.cc:1763-1842 | a partial FETCH_ON_WRITE store into a RESERVED sector whose entry has room is accepted: its fetch joins the entry and nothing is queued |
| CachePolicies.StoreSurvivesFillExactlyWhen | gpgpusim_cache/gpgpu_cache/gpu_cache_ref.cc:1544-1842 | over access() and then fill(), for every answer of the probe: when a packet carries a byte of an accepted FETCH_ON_WRITE store, and if none does, when the byte is dirty after the fill: after a hit, or a full store into a RESERVED sector, exactly if modified-on-fill had been set; after a full store otherwise never; after a partial one exactly if the byte was already marked in that line or belongs to the request that is filled |
| FetchOnWriteRuns.AcceptedStoreIsLost | gpgpusim_cache/gpgpu_cache/gpu_cache_ref.cc:1370-1842 | a legal run from the constructed cache (read, cycle, store, fill) that loses every byte of a full-sector store, and every byte of a partial store that the read had not asked for; after the full store the dirty counter counts a line that is not modified |
| FetchOnWriteRuns.SecondStoreIsLost | gpgpusim_cache/gpgpu_cache/gpu_cache_ref.cc:1370-1842 | a legal run of a write-back cache in which a second store hits the sector of a full store whose fetch is outstanding: it is accepted, nothing is queued, and the fill loses every byte of it |
| FetchOnWriteRuns.ThroughStoreIsLost | gpgpusim_cache/gpgpu_cache/gpu_cache_ref.cc:1713-1842 | a legal run of a WRITE_THROUGH cache with FETCH_ON_WRITE that accepts a full store, sends nothing down, and loses it when a read takes its line |
| FetchOnWriteRuns.SuchStoresExist | gpgpusim_cache/gpgpu_cache/gpu_cache_ref.cc:1713-1842 | a configuration and concrete stores of both kinds to which the write-back runs apply |
| FetchOnWriteRuns.SuchThroughStoresExist | gpgpusim_cache/gpgpu_cache/gpu_cache_ref.cc:1713-1842 | likewise for the write-through run |
| MixedRuns.LocalWriteIsLost | gpgpusim_cache/gpgpu_cache/gpu_cache_ref.cc:1592-1628 | a legal run from the constructed LOCAL_WB_GLOBAL_WT cache (read, fill, local write, global write, each response collected before the next access) after which each byte of the local write that the global one did not write is in no line and no packet, the dirty counter is 1 and no line is modified |
| MixedRuns.AnsweredWithoutFetch | gpgpusim_cache/gpgpu_cache/gpu_cache_ref.cc:1370-2129 | a legal run of such a cache in which a global write comes between fill() and next_access(): the next read joins the entry already marked ready and is answered though only the first read was ever fetched; with all queues empty the way it was given is RESERVED |
| MixedRuns.NextReadFetches | gpgpusim_cache/gpgpu_cache/gpu_cache_ref.cc:1370-2129 | from there the next read of the block is accepted, queues its own fetch, and its fill makes that line VALID |
| MixedRuns.SuchRequestsExist | gpgpusim_cache/gpgpu_cache/gpu_cache_ref.cc:1614-1628 | a configuration and requests to which both runs apply |
| CacheProvenance.WriteBacksNameWrittenBytes | gpgpusim_cache/gpgpu_cache/gpu_cache_ref.cc:379-482 | over any run of a SECTOR cache under any policy, a write-back names a byte of a block only if an accepted write of that byte to that block, or the fill of a fetch of that block that asked for it, happened before |
| CacheProvenance.AccessedBytes | gpgpusim_cache/gpgpu_cache/gpu_cache_ref.h:340-396 | a sectored line that is taken starts with no byte marked, and an access adds only the bytes it writes |
| CacheReadability.HitsExactlyWhen | gpgpusim_cache/gpgpu_cache/gpu_cache_ref.cc:1370-2129 | over any run under the covered policies an accepted request hits if and only if its block is in a line and, since the block was given one: for a read, the fetch of its sector was filled or, in a SECTOR cache, accepted stores left each byte of the sector there; for a write, a fetch was filled or a store left bytes in the sector, and no request that missed waits for it |
| CacheWriteBacks.WriteBacksAreExact | gpgpusim_cache/gpgpu_cache/gpu_cache_ref.cc:379-482 | over any run under the covered policies an accepted request queues a write-back of a block if and only if the block loses its line to it, a store was left in it since it was given the line, and the cache is not write-through; of a SECTOR cache it names exactly the sectors of those stores, and exactly their bytes and those asked for by fetches filled after a store had merged with one |
| CacheWriteBacks.LosesExactlyWhen | gpgpusim_cache/gpgpu_cache/gpu_cache_ref.cc:379-435 | a block loses its line if and only if an accepted request misses, allocates and is given that line |
| CacheAnswers.HitIsReadyExactlyWhen | gpgpusim_cache/gpgpu_cache/gpu_cache_ref.cc:1285-1368 | from any reachable state, under every policy: until it is delivered an accepted hit waits exactly while the cycles since, times the port width, fall short of its data size, and at least one cycle; then it is in the ready queue |
| CacheAnswers.HitsAnswerInOrder | gpgpusim_cache/gpgpu_cache/gpu_cache_ref.cc:1308-1352 | over any run, under every policy: of two hits the one accepted first is answered first if it has no more cycles left than the other needs |
| CacheAnswers.FillsAnswerInOrder | gpgpusim_cache/gpgpu_cache/gpu_cache_ref.cc:651-673 | over any run, under every policy: a request whose fetch was filled is delivered before every request that waits for a fetch filled later |
| LineRuns.WholeLineNamesStrayBytes | gpgpusim_cache/gpgpu_cache/gpu_cache_ref.h:195-209 | a legal run of a cache of NORMAL lines whose second write-back names every byte written to the block its line held before, none of them written to or fetched for its own block |
| LineRuns.LazyLineFails | gpgpusim_cache/gpgpu_cache/gpu_cache_ref.cc:403-413 | a legal run of LAZY_FETCH_ON_READ over NORMAL lines, a partial store and a read of its line, that fails the assertion on the cache type |
| LineRuns.SuchLinesExist | gpgpusim_cache/gpgpu_cache/gpu_cache_ref.cc:1844-1909 | configurations, stores and a read to which these runs apply |
| Caches.Mshrs.Add | gpgpusim_cache/gpgpu_cache/gpu_cache_ref.cc:621-634 | the new table; its limits are assertions |
| Caches.Mshrs.MarkReady | gpgpusim_cache/gpgpu_cache/gpu_cache_ref.cc:651-658 | the address is appended to the ready queue |
| Caches.Mshrs.NextAccess | gpgpusim_cache/gpgpu_cache/gpu_cache_ref.cc:661-673 | the first request of the first ready entry, and the entry removed with its last request |
| Caches.Cache.SendReadRequest | gpgpusim_cache/gpgpu_cache/gpu_cache_ref.cc:1465-1512 | the object's new state is the specified one: pin, MSHR entry, record and queue together, or nothing |
| Caches.Cache.WriteHitBack | gpgpusim_cache/gpgpu_cache/gpu_cache_ref.cc:1544-1560 | new state of a write-back hit |
| Caches.Cache.WriteHitThrough | gpgpusim_cache/gpgpu_cache/gpu_cache_ref.cc:1563-1588 | new state of a write-through hit |
| Caches.Cache.WriteHitEvict | gpgpusim_cache/gpgpu_cache/gpu_cache_ref.cc:1592-1611 | new state of a write-evict hit |
| Caches.Cache.WriteMissAllocate | gpgpusim_cache/gpgpu_cache/gpu_cache_ref.cc:1631-1711 | new state of the naive write-allocate miss |
| Caches.Cache.WriteMissFetchOnWrite | gpgpusim_cache/gpgpu_cache/gpu_cache_ref.cc:1713-1842 | new state of a fetch-on-write miss, full-sector or partial |
| Caches.Cache.WriteMissLazy | gpgpusim_cache/gpgpu_cache/gpu_cache_ref.cc:1844-1909 | new state of a lazy-fetch-on-read write miss |
| Caches.Cache.WriteMissNoAllocate | gpgpusim_cache/gpgpu_cache/gpu_cache_ref.cc:1912-1929 | new state of a write miss without allocation |
| Caches.Cache.ReadHit | gpgpusim_cache/gpgpu_cache/gpu_cache_ref.cc:1932-1953 | new state of a read hit |
| Caches.Cache.ReadMiss | gpgpusim_cache/gpgpu_cache/gpu_cache_ref.cc:1956-1992 | new state of a read miss |
| Caches.Cache.ReadOnlyCacheAccess | gpgpusim_cache/gpgpu_cache/gpu_cache_ref.cc:1996-2046 | new state and status of a read-only access |
| Caches.Cache.ProcessTagProbe | gpgpusim_cache/gpgpu_cache/gpu_cache_ref.cc:2051-2105 | which handler runs for each probe result, and its result |
| Caches.Cache.DataCacheAccess | gpgpusim_cache/gpgpu_cache/gpu_cache_ref.cc:2111-2129 | new state and status of a data cache access |
| Caches.Cache.Access | gpgpusim_cache/gpgpu_cache/gpu_cache_ref.cc:1996-2129 | under every policy, in a state with exact pins and entries and on a request that does not meet the one failing case, access() carries out the specified step and keeps both invariants, so that the theorems above hold of the object |
| Caches.Cache.Cycle | gpgpusim_cache/gpgpu_cache/gpu_cache_ref.cc:1341-1368 | the loop over the hit responses and the transfer to the lower level carry out the specified step |
| Caches.Cache.Fill | gpgpusim_cache/gpgpu_cache/gpu_cache_ref.cc:1370-1415 | under every policy fill() carries out the specified step and keeps both invariants |
| Caches.Cache.NextAccess | gpgpusim_cache/gpgpu_cache/gpu_cache_ref.cc:1315-1327 | the response handed out and the new state, its pin given back |
| CircularFifo.Ring.PushAppends | gpgpusim_cache/gpgpu_cache/gpu_cache_ref.h:2025-2054 | a push appends to the contents and no live entry changes its slot |
| CircularFifo.Ring.PopRemovesOldest | gpgpusim_cache/gpgpu_cache/gpu_cache_ref.h:2032-2059 | a pop removes the oldest entry and no other entry changes its slot, also across the wrap |
| CircularFifo.Ring.PutReplaces | gpgpusim_cache/gpgpu_cache/gpu_cache_ref.h:2038-2046 | writing through a saved slot index replaces exactly the entry at that slot's place in the queue |
| CircularFifo.Fifo.Push | gpgpusim_cache/gpgpu_cache/gpu_cache_ref.h:2025-2031 | the buffer's new state, and the slot returned is the one written |
| CircularFifo.Fifo.Pop | gpgpusim_cache/gpgpu_cache/gpu_cache_ref.h:2032-2037 | the buffer's new state and its oldest entry |
| TexModel.MissHeadIsRobHead | gpgpusim_cache/gpgpu_cache/gpu_cache_ref.cc:2207-2220 | a miss fragment at the head belongs to the head of the reorder buffer, with the same request, line and block: the request-match assertion cannot fail |
| TexModel.HitHeadFindsItsBlock | gpgpusim_cache/gpgpu_cache/gpu_cache_ref.cc:2221-2233 | a hit fragment at the head finds its own block in the data array although the tags ran ahead: neither hit assertion can fail |
| TexModel.FillFindsItsEntry | gpgpusim_cache/gpgpu_cache/gpu_cache_ref.cc:2237-2268 | the slot index saved with an outstanding fetch names a live, not yet ready entry of that request, through any wraparound |
| TexModel.AccessKeepsInv | gpgpusim_cache/gpgpu_cache/gpu_cache_ref.cc:2155-2195 | an accepted access keeps the replay invariant (replaying the pending misses onto the data array gives the tags, and every pending hit its block after the misses before it) and appends its request; a rejected one has no effect |
| TexModel.RetireKeepsInv | gpgpusim_cache/gpgpu_cache/gpu_cache_ref.cc:2207-2234 | retiring the head fragment keeps the replay invariant |
| TexModel.FillKeepsInv | gpgpusim_cache/gpgpu_cache/gpu_cache_ref.cc:2237-2268 | a fill keeps the replay invariant |
| TexHits.AccessAnswers | gpgpusim_cache/gpgpu_cache/gpu_cache_ref.cc:2155-2195 | access() fails exactly for lack of room in the fragment or request FIFO or the reorder buffer; otherwise it answers HIT_RESERVED if and only if replaying the pending misses onto the data array puts the block in a way of its set, and then sends nothing, and else MISS with exactly one more request |
| TexHits.FetchedAgainOnlyAfterTaken | gpgpusim_cache/gpgpu_cache/gpu_cache_ref.cc:2155-2268 | over any run, a block that was accepted is fetched again only after its line was taken by a miss of another block |
| TexRuns.StepKeepsInv | gpgpusim_cache/gpgpu_cache/gpu_cache_ref.cc:2155-2268 | every legal event is possible and keeps the invariant |
| TexRuns.TextureRunsInOrder | gpgpusim_cache/gpgpu_cache/gpu_cache_ref.cc:2155-2268 | over any run no assertion fails, and delivered ++ result FIFO ++ requests of the fragment FIFO is always the accepted sequence |
| TexRuns.SomeStepDrains | gpgpusim_cache/gpgpu_cache/gpu_cache_ref.cc:2197-2268 | while anything is pending some step lowers a natural-number measure |
| TexRuns.DrainsCompletely | gpgpusim_cache/gpgpu_cache/gpu_cache_ref.cc:2279-2283 | every reachable state can be drained, and then everything accepted was delivered in order |
| TexCaches.TexCache.Access | gpgpusim_cache/gpgpu_cache/gpu_cache_ref.cc:2155-2195 | the object carries out the specified step, its source assertions proved in place, the one on the data size being the caller's to meet |
| TexCaches.TexCache.Cycle | gpgpusim_cache/gpgpu_cache/gpu_cache_ref.cc:2197-2234 | likewise, for both halves of the cycle |
| TexCaches.TexCache.Fill | gpgpusim_cache/gpgpu_cache/gpu_cache_ref.cc:2237-2268 | likewise |
| Ipoly.HashIsRemainder | reference-only-originals-gpgpusim/hashing.cc:30-86 | the XOR equations for 16, 32 and 64 sets are the remainder of (higher bits : index) modulo x^4+x+1, x^5+x^2+1 and x^6+x+1 over the 13, 15 and 19 tapped bits; all other higher bits are irrelevant |
| Ipoly.WindowsDoNotCollide | reference-only-originals-gpgpusim/hashing.cc:29-37 | for bit strings of any length and any polynomial with constant term 1: strings that differ, and only within m consecutive bits, have different remainders |
| Ipoly.IpolyIsConflictFree | reference-only-originals-gpgpusim/hashing.cc:34-86 | line addresses that differ only in log2(sets) consecutive tapped bits go to different sets, and every result is a set number |
| Ipoly.IpolyPermutesIndexes | reference-only-originals-gpgpusim/hashing.cc:34-86 | for fixed higher bits the hash is a permutation of the set numbers |
| Ipoly.SumOfXor | reference-only-originals-gpgpusim/hashing.cc:30-86 | each hash equation is linear over GF(2) |
| Ipoly.IpolyLowBits | reference-only-originals-gpgpusim/hashing.cc:30-86 | the low bits of the hash depend on the index only through its low bits |
| MaskPacking.PackBits | reference-only-originals-gpgpusim/addrdec.cc:595-606 | the loop packs the selected bits in order and zeroes the rest |
| MaskPacking.GetMaskLimit | reference-only-originals-gpgpusim/addrdec.cc:608-626 | the tightest range holding every one of the mask, and (64, 0) for the empty mask |
| MaskPacking.LimitsAreEnough | reference-only-originals-gpgpusim/addrdec.cc:595-626 | packing over those limits equals packing over all 64 bits |
| MaskPacking.PackDetermines | reference-only-originals-gpgpusim/addrdec.cc:595-606 | two words pack alike if and only if they agree on the bits of the mask |
| MaskPacking.SubPartitionMask | reference-only-originals-gpgpusim/addrdec.cc:446-459 | the loop marks exactly the lowest log2(n) ones of the BK mask |
| MaskPacking.LowPackedBits | reference-only-originals-gpgpusim/addrdec.cc:446-459 | the low bits of a packed bank number agree if and only if the addresses agree under that mask |
| MaskPacking.LogB2 | reference-only-originals-gpgpusim/addrdec.cc:554-577 | the exponent of the largest power of two that does not exceed a 32-bit value |
| MaskPacking.NextPowerOf2 | reference-only-originals-gpgpusim/addrdec.cc:581-593 | the loop that clears lowest ones computes NextPow2 for every 32-bit argument |
| MaskPacking.NextPow2IsLeast | reference-only-originals-gpgpusim/addrdec.cc:579-593 | that is the least power of two not below n if and only if 2 <= n <= 2^31 |
| AddressMap.LowBankIsLowBits | reference-only-originals-gpgpusim/addrdec.cc:196-200 | bk & (n - 1) is the number formed by the log2(n) lowest bank bits |
| AddressConfig.ConfiguredIsReady | reference-only-originals-gpgpusim/addrdec.cc:282-459 | init succeeds exactly when the sub-partition count, and without dramid the channel count, is a power of two; the mapping is then consistent and the CHIP mask is exactly the inserted hole |
| AddressConfig.ConfiguredMasksAre | reference-only-originals-gpgpusim/addrdec.cc:398-420 | init moves every bit of BK, ROW and COL at or above the start up by the width of the channel number, sets exactly those bits of CHIP in between, and leaves the masks alone under gap or without a dramid |
| AddressConfig.HoleKeepsSplit | reference-only-originals-gpgpusim/addrdec.cc:402-420 | opening the hole keeps CHIP, BK, ROW and COL a partition of the low address bits, wider by the channel bits |
| AddressConfig.BuiltInSplits | reference-only-originals-gpgpusim/addrdec.cc:298-396 | in every built-in case the masks partition the low 27 (case 3: 28) bits, CHIP empty and the hole inside them |
| AddressDecoders.ParsedMasksAreDisjoint | reference-only-originals-gpgpusim/addrdec.cc:203-280 | an option is accepted if and only if its map has 64 letters, none of them D if there is a dramid; the letters name the bits from 63 down to 0, D in CHIP, B in BK, R in ROW, C in COL, S in COL and BURST, so that CHIP, BK, ROW and COL are disjoint |
| AddressUniqueness.ConsecutiveDoesNotAlias | reference-only-originals-gpgpusim/addrdec.cc:78-201 | consecutive indexing, any channel count: sub-partition number and partition address are equal if and only if the 64-bit addresses are |
| AddressUniqueness.ConsecutiveIsInRange | reference-only-originals-gpgpusim/addrdec.cc:95-200 | with a dramid, every decoded channel and sub-partition number exists, and the channel is the sub-partition number divided by the sub-partitions of a channel |
| AddressFields.CoordinatesAgreeExactlyWhen | reference-only-originals-gpgpusim/addrdec.cc:95-201 | for every indexing: two addresses that decode have the same bk, row, col or burst if and only if, with the channel number divided out under gap, they agree on the bits of that mask, of which a field keeps the 32 lowest |
| AddressFields.CoordinatesCountBits | reference-only-originals-gpgpusim/addrdec.cc:95-201 | for every indexing: setting one more address bit adds 2^j to the field in whose mask it is the j-th lowest bit, and nothing to a field whose mask lacks it; the address zero has bk, row, col and burst zero |
| AddressFields.ChannelsAre | reference-only-originals-gpgpusim/addrdec.cc:95-201 | under consecutive and custom indexing the channel is the number of its bits, or the remainder by the channel count, and the sub-partition number is the channel times the sub-partitions plus the bank number modulo them, without overflow |
| AddressFields.PartitionCountsBits | reference-only-originals-gpgpusim/addrdec.cc:78-93 | one more bit adds 2^j to the partition address if it is the j-th lowest that names neither channel nor sub-partition, and else nothing; that of zero is zero |
| AddressHashing.PermutedChip | reference-only-originals-gpgpusim/addrdec.cc:132-140 | under the bitwise permutation an address decodes exactly when its channel bits beyond the channel count are zero, and the channel is then the channel bits plus the low higher bits in GF(2), below the channel count |
| AddressHashing.PermutationSeparatesExactlyWhen | reference-only-originals-gpgpusim/addrdec.cc:78-201 | bitwise permutation, channel bits inserted as a hole or named one by one: no two 64-bit addresses that decode share sub-partition and partition address, if and only if the k-th channel bit is nowhere the k-th hashed bit |
| AddressHashing.PermutationDoesNotAlias | reference-only-originals-gpgpusim/addrdec.cc:78-201 | hence with the hole of init() no two 64-bit addresses ever do, and every address decodes |
| AddressAliases.PermutationAliases | reference-only-originals-gpgpusim/addrdec.cc:132-140 | the failing input: 8 channels of one sub-partition and an option that names bits 2, 3 and 4 send every address to channel 0, and addresses 4 and 0 to one place |
| AddressHashing.IpolySub | reference-only-originals-gpgpusim/addrdec.cc:141-161 | under IPOLY the sub-partition number is in range and is the hash of the channel and low bank bits with the higher bits, and the channel is its quotient by the sub-partitions |
| AddressHashing.HashOfXor | reference-only-originals-gpgpusim/addrdec.cc:141-161 | the IPOLY sub-partition number is linear in the address: the hash of a difference is the difference of the hashes |
| AddressHashing.IpolySeparatesExactlyWhenSeen | reference-only-originals-gpgpusim/addrdec.cc:78-201 | IPOLY without gap, however the channel bits are given: no two 64-bit addresses share sub-partition and partition address if and only if every nonzero difference in channel and sub-partition bits has a nonzero hash |
| AddressHashing.IpolySeparatesExactlyWhen | reference-only-originals-gpgpusim/addrdec.cc:78-201 | with the channel bits in a hole: if and only if no nonempty set of sub-partition bits has a hash whose log2(subs) low bits are all zero |
| AddressHashing.IpolySeparatesTwoExactlyWhen | reference-only-originals-gpgpusim/addrdec.cc:78-201 | with two sub-partitions: if and only if the sub-partition bit lies below the hashed higher bits or is not one of those in the equation of the lowest hash bit |
| AddressHashing.IpolyDoesNotAlias | reference-only-originals-gpgpusim/addrdec.cc:78-201 | in particular whenever every sub-partition bit lies below the hashed higher bits |
| AddressAliases.IpolyAliases | reference-only-originals-gpgpusim/addrdec.cc:141-161 | the failing input: built-in case 6 with 8 channels of 2 sub-partitions sends addresses 0x4080 and 0 to one sub-partition and one address in it |
| AddressGaps.IpolyWithGapAliases | reference-only-originals-gpgpusim/addrdec.cc:141-161 | for every channel count that is no power of two and decodes under IPOLY, two addresses with equal coordinates, sub-partition and partition address are constructed: the remainder after the hash never keeps addresses apart |
| AddressHashing.IpolyDecodesExactlyWhen | reference-only-originals-gpgpusim/addrdec.cc:141-161 | with and without gap, an IPOLY mapping decodes an address if and only if next_powerOf2(channels) times the sub-partitions is 16, 32 or 64 |
| AddressHashing.OneChannelNeverDecodes | reference-only-originals-gpgpusim/addrdec.cc:579-593 | so with one channel, which next_powerOf2 rounds to 0, it decodes none |
| AddressDecode.DecodeIsInjective | reference-only-originals-gpgpusim/addrdec.cc:95-201 | (chip, bk, row, col) is one-to-one on the covered range: with and without gap under consecutive indexing, without gap under the bitwise permutation and IPOLY |
| AddressDecode.BuiltInIsRegular | reference-only-originals-gpgpusim/addrdec.cc:282-459 | every built-in case, with any channel and sub-partition counts that fit, configures such a mapping |
| AddressDecoders.AddressDecoder.ParseOption | reference-only-originals-gpgpusim/addrdec.cc:203-280 | the loop fails exactly where an assertion of the original does, and otherwise leaves the specified masks |
| AddressDecoders.AddressDecoder.SelectMasks | reference-only-originals-gpgpusim/addrdec.cc:298-396 | the masks of each case; an unknown number changes nothing |
| AddressDecoders.AddressDecoder.OpenHole | reference-only-originals-gpgpusim/addrdec.cc:402-418 | the loop and shifts that insert the CHIP mask and move the other masks above it |
| AddressDecoders.AddressDecoder.Init | reference-only-originals-gpgpusim/addrdec.cc:282-459 | init on a new object succeeds exactly when the specification does and leaves the specified mapping, with right packing limits |
| AddressDecoders.AddressDecoder.Tlx | reference-only-originals-gpgpusim/addrdec.cc:95-201 | the decoding of the object, with packing over the limits, is the specified one |
| AddressDecoders.AddressDecoder.PartitionAddress | reference-only-originals-gpgpusim/addrdec.cc:78-93 | likewise for the partition address |
| LockList.LockedBlock.TrackLoadLocked | gem5_cache/src/mem/cache/cache_blk.hh:335-347 | the loop that erases in place leaves the non-intersecting locks in order, behind the new one |
| LockList.LockedBlock.ClearLoadLocks | gem5_cache/src/mem/cache/cache_blk.hh:353-363 | exactly the intersecting locks of other contexts are erased |
| LockList.LockedBlock.CheckWrite | gem5_cache/src/mem/cache/cache_blk.hh:420-460 | when a write proceeds, and the list it leaves |
| LockList.LocksAreReservations | gem5_cache/src/mem/cache/cache_blk.hh:117-153 | over any history of proper requests the locks have pairwise disjoint ranges, and a lock is listed exactly when a load-locked request made it and nothing since ended it |
| LockList.StoreConditionalSucceedsExactlyWhen | gem5_cache/src/mem/cache/cache_blk.hh:420-460 | a store-conditional succeeds if and only if its context made a load-locked request covering it since which there was no invalidation, no intersecting load-locked request, no intersecting store or store-conditional of another context, and no store-conditional of its own within that range |
| LockList.WriteProceedsExactlyWhen | gem5_cache/src/mem/cache/cache_blk.hh:420-460 | over any history a plain store always proceeds, and a store-conditional exactly under the condition above |
| LockList.StoreConditionalsNeedReservations | gem5_cache/src/mem/cache/cache_blk.hh:430-453 | after any store-conditional, one to the same bytes fails for every context until the next load-locked request |
| DelayFifo.Pipeline.Push | reference-only-originals-gpgpusim/delayqueue.h:68-84 | the linked list after a push, a bubble at the tail overwritten |
| DelayFifo.Pipeline.Pop | reference-only-originals-gpgpusim/delayqueue.h:86-112 | the head and the linked list after a pop, refilled to the minimum length |
| DelayFifo.Pipeline.SetMinLength | reference-only-originals-gpgpusim/delayqueue.h:122-154 | the loops add bubbles up to a larger minimum and drop tail bubbles down to a smaller one |
| DelayFifo.PushKeepsItems | reference-only-originals-gpgpusim/delayqueue.h:68-84 | a push succeeds exactly below the maximum length and loses at most a bubble |
| DelayFifo.RunKeepsOrder | reference-only-originals-gpgpusim/delayqueue.h:68-112 | over any run the length stays between minimum and maximum and items leave in push order, none lost and none duplicated |
| DelayFifo.ItemsMoveOnePlaceAPop | reference-only-originals-gpgpusim/delayqueue.h:68-112 | each pop moves every settled position exactly one place, whatever is pushed meanwhile |
| DelayFifo.ItemsAreDelayed | reference-only-originals-gpgpusim/delayqueue.h:48-112 | an item leaves by a pop fixed at its push and never before the k-th, k being the minimum length |
| DelayFifo.WithMinKeepsItems | reference-only-originals-gpgpusim/delayqueue.h:122-154 | changing the minimum fails exactly when it exceeds the maximum, and touches bubbles only |
| ConfigString.ScanOfRender | deprecated/src/cache_config.cc:67-110 | for any format in which a non-digit follows each number, scanning a printed text gives the printed fields back |
| ConfigString.PrintFits | deprecated/src/cache_config.cc:67-87 | the text is always shorter than the buffer of 256 characters |
| ConfigString.ParseOfPrint | deprecated/src/cache_config.cc:67-180 | parsing a printed configuration succeeds on any object and restores all thirteen fields if and only if replacement is LRU or FIFO and the MSHRs are ASSOC or SECTOR_ASSOC |
| ConfigString.ParseOfLong | deprecated/src/cache_config.cc:89-180 | a text of the long format with any characters and 32-bit numbers is accepted if and only if each character is one of its switch; each number goes to its own field and each character stands for its own policy, and an assertion fails exactly if the sizes are no powers of two or the sector size does not divide the line |
| ConfigString.ParseOfShort | deprecated/src/cache_config.cc:96-110 | a text of three numbers sets the number of sets, the line size and the associativity, in this order, and keeps every other field |
| ConfigString.CacheConfig.ParseConfigString | deprecated/src/cache_config.cc:89-180 | the object's fields after a parse, also after one that fails half-way |

## Left out

- Statistics, per-window counters, watermarks, events, stream ids, printing and port bandwidth: they do not affect acceptance in these classes.
- Fields that no decision reads: per-sector times, fill times, ignore-on-fill, last failure reason. The modified size of an eviction follows from its masks.
- `mem_fetch` is an immutable value with an identity: `set_addr` and `set_data_size` around a fetch, undone by `fill`, are not modelled, and the address argument of each call is the fetch's own address. Its sector mask is a single sector.
- Line tags and MSHR addresses are `a - a % size`, which is `a & ~(size - 1)` for the power-of-two sizes the configuration uses; the set-index hash of the caches is an arbitrary function into the sets.
- Per-sector arrays are sequences of records; block objects hold values of these.
- The dirty-percentage test is done in integers instead of floating point.
- `m_defer_hit_response` is true, allocation is ON_MISS, MSHRs are ASSOC. ON_FILL and STREAMING, SECTOR_ASSOC and SECTOR_TEX_FIFO, dynamic associativity, `force_tag_access` and atomics are not part of this model, nor are `flush` and `invalidate`.
- FETCH_ON_WRITE, WRITE_EVICT, LOCAL_WB_GLOBAL_WT, and LAZY_FETCH_ON_READ over NORMAL lines: the core invariant covers them, the stronger one does not; see Findings.
- CacheGuarantees.NoAcceptedWriteIsLost: is about the covered policies; under the others it can fail, and CacheGuarantees.AcceptedWriteIsLostOnlyWhen says in which cases.
- Texture cache: NORMAL lines and TEX_FIFO only.
- Address mapping: RANDOM interleaving (a random table) and PAE (which the switch rejects); CUSTOM behaves like CONSECUTIVE, as in the code. Shift amounts are those of the 64-bit word, and at most 30 with a gap, where the original shifts an int; a shift by all 64 bits is taken to leave zero, and hashed indexing whose shift would be negative or more than 64 is left out. `sscanf` on the option is represented by its result, a dramid and the text after the semicolon; the power-of-two loop of `powli` is for base 2 only; printing and the 16 MB sweep are left out.
- The hash of the simulator's stub header, which ignores its index, and `PAE_hash_function`, which is no permutation.
- gem5: only the lock list of a block; coherence bits, move assignment and the rest of the cache classes are not part of this model. Addresses are 64-bit; the theorems are for requests of at least one byte that do not wrap.
- Delay FIFO: the element counter, which also counts the constructor's bubbles, and deallocation.
- Configuration string: leading white space, signs and numbers beyond 64 bits that `%u` also accepts; derived parameters other than the assertions on them; the address hash functions.
