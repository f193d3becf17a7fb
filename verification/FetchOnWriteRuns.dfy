/** Runs of a FETCH_ON_WRITE cache that lose accepted stores. */
module FetchOnWriteRuns {
  import opened CacheTypes
  import opened Options
  import opened TagArrays
  import opened CacheModel
  import opened CacheLines
  import opened CacheAdmission
  import opened CacheOperations
  import opened CacheTraffic
  import opened CacheCore
  import opened CacheEffects
  import opened CacheDurability
  import opened CacheRuns
  import opened CacheGuarantees
  import opened CachePolicies
  import opened RunSteps

  // ---- one line of four sectors ----

  ghost predicate OneLine(cfg: Config) {
    && cfg.Valid() && cfg.cacheType == SECTOR && cfg.nset == 1 && cfg.assoc == 1
    && cfg.writePolicy in {WRITE_BACK, WRITE_THROUGH} && cfg.writeAllocate == FETCH_ON_WRITE
    && cfg.mshrEntries > 0 && cfg.mshrMaxMerge > 1 && cfg.missQueueSize > 2
  }

  // a client's request to the first sector of memory
  ghost predicate FirstSector(cfg: Config, mf: MemFetch)
    requires cfg.lineSize > 0
  {
    mf.id.Client? && mf.addr < SECTOR_SIZE && mf.dataSize <= SECTOR_SIZE && mf.sector == 0 && WellFormed(cfg, mf)
  }

  lemma FirstAddresses(cfg: Config, mf: MemFetch)
    requires cfg.Valid() && cfg.cacheType == SECTOR && FirstSector(cfg, mf)
    ensures cfg.BlockAddr(mf.addr) == 0 && cfg.MshrAddr(mf.addr) == 0 && cfg.SectorOf(mf) == 0
    ensures mf.dataSize <= cfg.AtomSize()
  {
  }

  lemma SoleProbe(cfg: Config, tags: Tags, addr: nat, sec: SectorId, isWrite: bool)
    requires Sized(cfg, tags) && cfg.nset == 1 && cfg.assoc == 1 && cfg.BlockAddr(addr) == 0
    ensures |tags.lines| == 1
    ensures Holds(tags.lines[0], 0) ==>
      ProbeTags(cfg, tags, addr, sec, isWrite) == ProbeResult(HitStatus(tags.lines[0].sectors[sec], isWrite), 0)
    ensures !Holds(tags.lines[0], 0) && FreeWay(cfg, tags.dirty, tags.lines[0]) ==>
      ProbeTags(cfg, tags, addr, sec, isWrite) == ProbeResult(MISS, 0)
  {
    assert cfg.SetBase(addr) == 0;
  }

  // the line allocated for the read
  function Allocated(time: nat): Block { INITIAL_BLOCK.Allocate(SECTOR, 0, 0, time, 0) }

  lemma AllocatedLine(time: nat)
    ensures var b := Allocated(time).Pin();
      && b.tag == 0 && b.blockAddr == 0 && b.dirtyBytes == {} && b.sectors[0].status == RESERVED
      && !b.sectors[0].modifiedOnFill
      && !b.IsModifiedLine() && !b.IsInvalidLine()
  {
  }

  function Empty(): CacheState { CacheState(Tags([INITIAL_BLOCK], 0), map[], [], [], [], [], map[], map[], 0) }

  lemma StartIsEmpty(cfg: Config)
    requires OneLine(cfg)
    ensures InitialCache(cfg) == Empty() && Sized(cfg, Empty().tags)
  {
    assert cfg.NumLines() == 1;
    assert InitialCache(cfg).tags.lines == [INITIAL_BLOCK];
  }

  lemma ReadAllocates(cfg: Config, read: MemFetch, time: nat)
    requires OneLine(cfg) && FirstSector(cfg, read) && !read.isWrite
    ensures Sized(cfg, Empty().tags) && ProbeFor(cfg, Empty(), read) == ProbeResult(MISS, 0)
    ensures TagAccess(cfg, Empty().tags, 0, read, time) == Some(AccessResult(Tags([Allocated(time)], 0), MISS, 0, None))
  {
    hide ProbeTags, FirstSector;
    StartIsEmpty(cfg);
    FirstAddresses(cfg, read);
    SoleProbe(cfg, Empty().tags, 0, 0, false);
    assert [INITIAL_BLOCK][0 := Allocated(time)] == [Allocated(time)];
  }

  // the state with the read's fetch in the miss queue, and after it was sent
  function Waiting(read: MemFetch, time: nat, queue: seq<Packet>): CacheState {
    CacheState(Tags([Allocated(time).Pin()], 0), map[0 := [read]], [], queue, [], [], map[read := Extra(0, 0)],
               map[read := 0], 0)
  }

  lemma FetchingIsWaiting(cfg: Config, read: MemFetch, time: nat)
    requires cfg.lineSize > 0 && cfg.MshrAddr(read.addr) == 0
    ensures Fetching(cfg, Empty(), Tags([Allocated(time)], 0), read, 0) == Waiting(read, time, [ReadPacket(read, 0)])
  {
    hide Allocated, Config.MshrAddr;
    assert [] + [read] == [read] && [] + [ReadPacket(read, 0)] == [ReadPacket(read, 0)];
    assert [Allocated(time)][0 := Allocated(time).Pin()] == [Allocated(time).Pin()];
  }

  lemma ReadIsAccepted(cfg: Config, read: MemFetch, time: nat) returns (next: CacheSystem)
    requires OneLine(cfg) && FirstSector(cfg, read) && !read.isWrite && time < TIME_SENTINEL
    ensures Legal(cfg, Start(cfg), Access(read, time)) && Step(cfg, Start(cfg), Access(read, time)) == Some(next)
    ensures next.s == Waiting(read, time, [ReadPacket(read, 0)]) && next.atMemory == {}
            && next.queued == [ReadPacket(read, 0)]
  {
    hide ProbeFor, TagAccess, CacheAccess, Fetching, Allocated;
    StartIsEmpty(cfg);
    FirstAddresses(cfg, read);
    ReadAllocates(cfg, read, time);
    ReadMissFetches(cfg, Empty(), read, time, Tags([Allocated(time)], 0), 0);
    FetchingIsWaiting(cfg, read, time);
    next := Step(cfg, Start(cfg), Access(read, time)).value;
  }

  lemma ReadIsSent(cfg: Config, sys: CacheSystem, read: MemFetch, time: nat) returns (next: CacheSystem)
    requires OneLine(cfg) && sys.s == Waiting(read, time, [ReadPacket(read, 0)]) && sys.atMemory == {}
    ensures Legal(cfg, sys, Cycle(false)) && Step(cfg, sys, Cycle(false)) == Some(next)
    ensures next.s == Waiting(read, time, []) && next.atMemory == {read} && next.queued == sys.queued
  {
    hide Allocated, CacheCycle;
    QuietCycle(sys.s);
    next := Step(cfg, sys, Cycle(false)).value;
  }

  // ---- the store ----

  lemma StoreProbe(cfg: Config, read: MemFetch, t: nat, store: MemFetch)
    requires OneLine(cfg) && FirstSector(cfg, store) && store.isWrite
    ensures Sized(cfg, Waiting(read, t, []).tags) && LinesOk(cfg, Waiting(read, t, []).tags.lines)
    ensures ProbeFor(cfg, Waiting(read, t, []), store) == ProbeResult(HIT_RESERVED, 0)
  {
    hide ProbeTags, Allocated, FirstSector;
    var tags := Waiting(read, t, []).tags;
    FirstAddresses(cfg, store);
    AllocatedLine(t);
    SoleProbe(cfg, tags, 0, 0, true);
    assert LineOk(cfg, Allocated(t).Pin(), 0);
  }

  // accepted, and nothing queued; the fetch of the read stays the only one
  ghost predicate StoreTaken(read: MemFetch, s: CacheState) {
    s.missQueue == [] && s.extra == map[read := Extra(0, 0)] && 0 in s.mshr && s.ready == [] && |s.tags.lines| == 1
  }

  lemma StoreIsAccepted(cfg: Config, read: MemFetch, t: nat, store: MemFetch, time: nat) returns (s': CacheState)
    requires OneLine(cfg) && FirstSector(cfg, store) && store.isWrite && !read.isWrite
    requires Sized(cfg, Waiting(read, t, []).tags)
    ensures CacheAccess(cfg, Waiting(read, t, []), store, time) == Some(Outcome(s', MISS)) && StoreTaken(read, s')
    ensures IsFull(cfg, store) ==> s'.tags == Tags([FullStore(Allocated(t).Pin(), time, 0, store.bytes)], 1)
  {
    hide ProbeFor, WrMissFetchOnWrite, Allocated, Block.Pin, FullStore, PartialStore, IsFull, FirstSector;
    var s := Waiting(read, t, []);
    StoreProbe(cfg, read, t, store);
    FirstAddresses(cfg, store);
    AllocatedLine(t);
    var b := Allocated(t).Pin();
    if IsFull(cfg, store) {
      FullStoreLine(cfg, s, store, 0, time);
      assert [b][0 := FullStore(b, time, 0, store.bytes)] == [FullStore(b, time, 0, store.bytes)];
    } else {
      PartialStoreMerges(cfg, s, store, 0, time);
    }
    s' := WrMissFetchOnWrite(cfg, s, store, 0, time).value.s;
  }

  // ---- the fill ----

  function Filled(cfg: Config, s: CacheState, read: MemFetch): CacheState
    requires |s.tags.lines| == 1
  {
    s.(tags := FillTags(cfg, s.tags, 0, cfg.SectorOf(read), read.bytes), ready := s.ready + [0],
       extra := s.extra - {read})
  }

  lemma ReadIsFilled(cfg: Config, read: MemFetch, s: CacheState)
    requires StoreTaken(read, s)
    ensures CacheFill(cfg, s, read) == Some(Filled(cfg, s, read))
  {
    hide FillTags;
    assert {0} <= s.mshr.Keys;
    assert |s.mshr| > 0;
  }

  // the bytes that a store loses: all of a full one, and those of another that the read did not ask for
  predicate Lost(cfg: Config, read: MemFetch, store: MemFetch, k: nat) {
    k in store.bytes && (IsFull(cfg, store) || k !in read.bytes)
  }

  lemma LostAfterFill(cfg: Config, read: MemFetch, t: nat, store: MemFetch, time: nat, s: CacheState, k: nat)
    requires OneLine(cfg) && FirstSector(cfg, read) && FirstSector(cfg, store) && store.isWrite && !read.isWrite
    requires Sized(cfg, Waiting(read, t, []).tags) && StoreTaken(read, s)
    requires CacheAccess(cfg, Waiting(read, t, []), store, time) == Some(Outcome(s, MISS)) && Lost(cfg, read, store, k)
    ensures !Resident(cfg, Filled(cfg, s, read).tags.lines, 0, k)
  {
    hide ProbeFor, CacheAccess, Resident, Filled, LinesOk, Allocated, Block.Pin, IsFull;
    StoreProbe(cfg, read, t, store);
    FirstAddresses(cfg, store);
    FirstAddresses(cfg, read);
    AllocatedLine(t);
    ReadIsFilled(cfg, read, s);
    StoreSurvivesFillExactlyWhen(cfg, Waiting(read, t, []), store, time, read, k);
  }

  lemma CountIsStale(cfg: Config, read: MemFetch, s: CacheState, b: Block, time: nat, bytes: set<nat>)
    requires s.tags == Tags([FullStore(b, time, 0, bytes)], 1) && cfg.SectorOf(read) == 0
    requires b.sectors == Allocated(0).sectors
    ensures Filled(cfg, s, read).tags.dirty == 1 && CountModified(Filled(cfg, s, read).tags.lines) == 0
  {
    var lines := Filled(cfg, s, read).tags.lines;
    assert lines[1..] == [];
  }

  lemma StoreStep(cfg: Config, at: CacheSystem, read: MemFetch, t: nat, store: MemFetch, time: nat)
      returns (next: CacheSystem)
    requires OneLine(cfg) && FirstSector(cfg, store) && store.isWrite && !read.isWrite && store != read
    requires at.s == Waiting(read, t, []) && at.atMemory == {read} && time < TIME_SENTINEL
    ensures Legal(cfg, at, Access(store, time)) && Step(cfg, at, Access(store, time)) == Some(next)
    ensures AcceptsWrite(cfg, at, store, time) && StoreTaken(read, next.s) && next.atMemory == {read}
    ensures CacheAccess(cfg, at.s, store, time) == Some(Outcome(next.s, MISS)) && next.queued == at.queued
    ensures IsFull(cfg, store) ==> next.s.tags == Tags([FullStore(Allocated(t).Pin(), time, 0, store.bytes)], 1)
  {
    hide CacheAccess, ProbeFor, Allocated, IsFull;
    StoreProbe(cfg, read, t, store);
    var s' := StoreIsAccepted(cfg, read, t, store, time);
    next := Step(cfg, at, Access(store, time)).value;
  }

  lemma FillStep(cfg: Config, at: CacheSystem, sys: CacheSystem, read: MemFetch, t: nat, store: MemFetch, time: nat)
    returns (next: CacheSystem)
    requires OneLine(cfg) && FirstSector(cfg, read) && FirstSector(cfg, store) && store.isWrite && !read.isWrite
    requires at.s == Waiting(read, t, []) && Sized(cfg, at.s.tags) && sys.queued == at.queued
    requires StoreTaken(read, sys.s) && sys.atMemory == {read}
    requires CacheAccess(cfg, at.s, store, time) == Some(Outcome(sys.s, MISS))
    requires IsFull(cfg, store) ==> sys.s.tags == Tags([FullStore(Allocated(t).Pin(), time, 0, store.bytes)], 1)
    ensures Legal(cfg, sys, Fill(read)) && Step(cfg, sys, Fill(read)) == Some(next)
    ensures forall k :: Lost(cfg, read, store, k) ==> !Safe(cfg, next, |at.queued|, 0, k)
    ensures IsFull(cfg, store) ==> next.s.tags.dirty == 1 && CountModified(next.s.tags.lines) == 0
  {
    hide CacheAccess, CacheFill, Resident, Filled, IsFull, Lost, FirstSector;
    StayedSized(cfg, sys.s, at.s);
    ReadIsFilled(cfg, read, sys.s);
    next := Step(cfg, sys, Fill(read)).value;
    forall k | Lost(cfg, read, store, k)
      ensures !Safe(cfg, next, |at.queued|, 0, k)
    {
      LostAfterFill(cfg, read, t, store, time, sys.s, k);
    }
    if IsFull(cfg, store) {
      FirstAddresses(cfg, read);
      CountIsStale(cfg, read, sys.s, Allocated(t).Pin(), time, store.bytes);
    }
  }

  lemma StayedSized(cfg: Config, s: CacheState, s0: CacheState)
    requires Sized(cfg, s0.tags) && |s.tags.lines| == |s0.tags.lines|
    ensures Sized(cfg, s.tags)
  {
  }

  /** A read misses, its fetch is sent, a store into the same sector is accepted, and the
      fetch is filled.  No byte that a full store wrote, and none of another store but
      those the read asked for, is then dirty in the line or was queued for the lower
      level; and after a full store the counter counts a line that is not modified. */
  lemma AcceptedStoreIsLost(cfg: Config, read: MemFetch, store: MemFetch) returns (at: CacheSystem, end: CacheSystem)
    requires OneLine(cfg) && FirstSector(cfg, read) && FirstSector(cfg, store) && !read.isWrite && store.isWrite
    ensures var (before, events) := ([Access(read, 1), Cycle(false)],
                                     [Access(read, 1), Cycle(false), Access(store, 2), Fill(read)]);
      && LegalRun(cfg, Start(cfg), events)
      && Run(cfg, Start(cfg), before) == Some(at) && Run(cfg, Start(cfg), events) == Some(end)
      && AcceptsWrite(cfg, at, store, 2)
    ensures forall k :: Lost(cfg, read, store, k) ==> !Safe(cfg, end, |at.queued|, 0, k)
    ensures IsFull(cfg, store) ==> end.s.tags.dirty == 1 && CountModified(end.s.tags.lines) == 0
  {
    hide Start, Step, Legal, Safe, Lost, IsFull, FirstSector, Allocated, CacheAccess, CountModified, AcceptsWrite;
    var first := ReadIsAccepted(cfg, read, 1);
    at := ReadIsSent(cfg, first, read, 1);
    var stored := StoreStep(cfg, at, read, 1, store, 2);
    StoreProbe(cfg, read, 1, store);
    end := FillStep(cfg, at, stored, read, 1, store, 2);
    var (e1, e2, e3, e4) := (Access(read, 1), Cycle(false), Access(store, 2), Fill(read));
    RunFirst(cfg, stored, e4, end, []);
    RunFirst(cfg, at, e3, stored, [e4]);
    RunFirst(cfg, first, e2, at, [e3] + [e4]);
    RunFirst(cfg, Start(cfg), e1, first, [e2] + ([e3] + [e4]));
    RunFirst(cfg, first, e2, at, []);
    RunFirst(cfg, Start(cfg), e1, first, [e2]);
    assert [e1] + ([e2] + ([e3] + [e4])) == [e1, e2, e3, e4] && [e1] + [e2] == [e1, e2];
    assert [e4] + [] == [e4] && [e2] + [] == [e2];
  }

  // ---- a second store, which hits ----

  // the state after a full store: its line is modified, not to be modified on fill
  ghost predicate Stored(read: MemFetch, s: CacheState) {
    && StoreTaken(read, s) && s.hitQueue == [] && read in s.pending
    && var b := s.tags.lines[0];
       && b.tag == 0 && b.blockAddr == 0 && b.sectors[0].status == MODIFIED && !b.sectors[0].modifiedOnFill
  }

  lemma FullStoreIsStored(cfg: Config, read: MemFetch, t: nat, store: MemFetch, s: CacheState)
    requires OneLine(cfg) && FirstSector(cfg, store) && store.isWrite && !read.isWrite && IsFull(cfg, store)
    requires Sized(cfg, Waiting(read, t, []).tags)
    requires CacheAccess(cfg, Waiting(read, t, []), store, 2) == Some(Outcome(s, MISS))
    ensures Stored(read, s)
  {
    hide ProbeFor, WrMissFetchOnWrite, Allocated, Block.Pin, FullStore, IsFull, FirstSector;
    var b := Allocated(t).Pin();
    StoreProbe(cfg, read, t, store);
    FirstAddresses(cfg, store);
    AllocatedLine(t);
    FullStoreLine(cfg, Waiting(read, t, []), store, 0, 2);
    assert [b][0 := FullStore(b, 2, 0, store.bytes)] == [FullStore(b, 2, 0, store.bytes)];
    StoredBlock(b, 2, store.bytes);
  }

  lemma StoredBlock(b: Block, time: nat, bytes: set<nat>)
    ensures var w := FullStore(b, time, 0, bytes);
      && w.tag == b.tag && w.blockAddr == b.blockAddr && w.sectors[0].status == MODIFIED
      && w.sectors[0].modifiedOnFill == b.sectors[0].modifiedOnFill
  {
  }

  lemma StoredProbe(cfg: Config, read: MemFetch, s: CacheState, again: MemFetch)
    requires OneLine(cfg) && FirstSector(cfg, again) && again.isWrite && Stored(read, s) && Sized(cfg, s.tags)
    ensures ProbeFor(cfg, s, again) == ProbeResult(HIT, 0) && LinesOk(cfg, s.tags.lines)
  {
    hide ProbeTags, FirstSector;
    FirstAddresses(cfg, again);
    SoleProbe(cfg, s.tags, 0, 0, true);
    assert LineOk(cfg, s.tags.lines[0], 0);
  }

  // a request that hits is accepted while a response can be queued
  lemma HitIsAccepted(cfg: Config, s: CacheState, mf: MemFetch, time: nat)
    requires Sized(cfg, s.tags) && ProbeFor(cfg, s, mf).status == HIT && !HitQueueFull(cfg, s) && mf.isWrite
    requires cfg.writePolicy == WRITE_BACK && CacheAccess(cfg, s, mf, time).Some?
    ensures CacheAccess(cfg, s, mf, time).value.status == HIT
  {
    hide ProbeFor, WrHitWb;
    WrHitWbHits(cfg, s, mf, ProbeFor(cfg, s, mf).idx, time);
  }

  lemma AgainStep(cfg: Config, at: CacheSystem, read: MemFetch, again: MemFetch) returns (next: CacheSystem)
    requires OneLine(cfg) && cfg.writePolicy == WRITE_BACK && cfg.hitQueueSize > 0 && SystemInv(cfg, at)
    requires FirstSector(cfg, again) && again.isWrite && !read.isWrite && Stored(read, at.s)
    requires at.s.pending.Keys == {read}
    ensures Legal(cfg, at, Access(again, 3)) && Step(cfg, at, Access(again, 3)) == Some(next)
    ensures AcceptsWrite(cfg, at, again, 3) && SystemInv(cfg, next)
    ensures next.s.extra == at.s.extra && next.queued == at.queued && next.atMemory == at.atMemory
  {
    hide CoreInv, CacheAccess, ProbeFor, FirstSector, EntriesInOrder, Reads, AccessedLine;
    CoreIsSized(cfg, at.s);
    StoredProbe(cfg, read, at.s, again);
    AgainIsPresentable(cfg, at.s, read, again);
    AccessStep(cfg, at, again, 3);
    next := Step(cfg, at, Access(again, 3)).value;
    HitIsAccepted(cfg, at.s, again, 3);
    AcceptedEffect(cfg, at.s, again, 3);
    HitQueuesNothing(cfg, at.s, again);
    assert at.queued + [] == at.queued;
  }

  lemma HitQueuesNothing(cfg: Config, s: CacheState, mf: MemFetch)
    requires cfg.lineSize > 0 && cfg.writePolicy == WRITE_BACK && 0 < |s.tags.lines|
    ensures AccessPackets(cfg, s, mf, ProbeResult(HIT, 0)) == [] && Recorded(cfg, s, mf, ProbeResult(HIT, 0)) == s.extra
  {
  }

  lemma AgainIsPresentable(cfg: Config, s: CacheState, read: MemFetch, again: MemFetch)
    requires OneLine(cfg) && FirstSector(cfg, again) && again.isWrite && !read.isWrite && s.pending.Keys == {read}
    requires Sized(cfg, s.tags)
    ensures Presentable(cfg, s, again, 3) && !Fails(cfg, s, again)
  {
    FirstAddresses(cfg, again);
    assert again != read;
    assert again in s.pending ==> again in s.pending.Keys;
  }

  lemma SecondFillStep(cfg: Config, at: CacheSystem, sys: CacheSystem, read: MemFetch, again: MemFetch)
    returns (next: CacheSystem)
    requires OneLine(cfg) && cfg.writePolicy == WRITE_BACK && FirstSector(cfg, read) && FirstSector(cfg, again)
    requires again.isWrite && !read.isWrite && Sized(cfg, at.s.tags) && Stored(read, at.s)
    requires Step(cfg, at, Access(again, 3)) == Some(sys) && AcceptsWrite(cfg, at, again, 3) && SystemInv(cfg, sys)
    requires sys.s.extra == at.s.extra && sys.queued == at.queued && read in sys.atMemory
    ensures Legal(cfg, sys, Fill(read)) && Step(cfg, sys, Fill(read)) == Some(next)
    ensures forall k :: k in again.bytes ==> !Safe(cfg, next, |at.queued|, 0, k)
  {
    hide CoreInv, CacheAccess, ProbeFor, FirstSector, EntriesInOrder, Reads, CacheFill, Resident, Carried, LinesOk;
    CacheRuns.FillStep(cfg, sys, read);
    next := Step(cfg, sys, Fill(read)).value;
    StoredProbe(cfg, read, at.s, again);
    FirstAddresses(cfg, again);
    FirstAddresses(cfg, read);
    AgainIsSector(cfg, again);
    forall k | k in again.bytes
      ensures !Safe(cfg, next, |at.queued|, 0, k)
    {
      StoreSurvivesFillExactlyWhen(cfg, at.s, again, 3, read, k);
      assert next.queued[|at.queued|..] == [];
      NothingCarries(cfg, 0, k);
    }
  }

  lemma AgainIsSector(cfg: Config, mf: MemFetch)
    requires cfg.lineSize > 0 && FirstSector(cfg, mf)
    ensures WellFormed(cfg, mf)
  {
  }

  lemma NothingCarries(cfg: Config, block: nat, k: nat)
    requires cfg.lineSize > 0
    ensures !Carried(cfg, [], block, k)
  {
  }

  /** After a store of the whole sector a second store hits the sector, whose fetch is still
      outstanding: it is accepted, nothing is queued for it, and the fill loses every one
      of its bytes. */
  lemma SecondStoreIsLost(cfg: Config, read: MemFetch, store: MemFetch, again: MemFetch)
    returns (at: CacheSystem, end: CacheSystem)
    requires OneLine(cfg) && cfg.writePolicy == WRITE_BACK && cfg.hitQueueSize > 0
    requires FirstSector(cfg, read) && FirstSector(cfg, store) && FirstSector(cfg, again)
    requires !read.isWrite && store.isWrite && IsFull(cfg, store) && again.isWrite
    ensures var before := [Access(read, 1), Cycle(false), Access(store, 2)];
      && LegalRun(cfg, Start(cfg), before + [Access(again, 3), Fill(read)])
      && Run(cfg, Start(cfg), before) == Some(at)
      && Run(cfg, Start(cfg), before + [Access(again, 3), Fill(read)]) == Some(end) && AcceptsWrite(cfg, at, again, 3)
    ensures forall k :: k in again.bytes ==> !Safe(cfg, end, |at.queued|, 0, k)
  {
    hide Start, Step, Legal, Safe, IsFull, FirstSector, Allocated, CacheAccess, AcceptsWrite, CoreInv, SystemInv;
    var first := ReadIsAccepted(cfg, read, 1);
    var second := ReadIsSent(cfg, first, read, 1);
    at := StoreStep(cfg, second, read, 1, store, 2);
    StoreProbe(cfg, read, 1, store);
    FullStoreIsStored(cfg, read, 1, store, at.s);
    var (e1, e2, e3, e4, e5) := (Access(read, 1), Cycle(false), Access(store, 2), Access(again, 3), Fill(read));
    RunFirst(cfg, second, e3, at, []);
    RunFirst(cfg, first, e2, second, [e3] + []);
    RunFirst(cfg, Start(cfg), e1, first, [e2] + ([e3] + []));
    assert [e1] + ([e2] + ([e3] + [])) == [e1, e2, e3];
    StartInv(cfg);
    RunKeepsInv(cfg, Start(cfg), [e1, e2, e3]);
    OnlyReadPends(cfg, second, read, 1, store, at);
    var third := AgainStep(cfg, at, read, again);
    StayedSized(cfg, at.s, second.s);
    end := SecondFillStep(cfg, at, third, read, again);
    RunFirst(cfg, third, e5, end, []);
    RunFirst(cfg, at, e4, third, [e5] + []);
    RunFirst(cfg, second, e3, at, [e4] + ([e5] + []));
    RunFirst(cfg, first, e2, second, [e3] + ([e4] + ([e5] + [])));
    RunFirst(cfg, Start(cfg), e1, first, [e2] + ([e3] + ([e4] + ([e5] + []))));
    assert [e1] + ([e2] + ([e3] + ([e4] + ([e5] + [])))) == [e1, e2, e3] + [e4, e5];
  }

  // a full store leaves nothing pending
  lemma OnlyReadPends(cfg: Config, sys: CacheSystem, read: MemFetch, t: nat, store: MemFetch, at: CacheSystem)
    requires OneLine(cfg) && FirstSector(cfg, store) && store.isWrite && IsFull(cfg, store)
    requires sys.s == Waiting(read, t, []) && Sized(cfg, sys.s.tags)
    requires CacheAccess(cfg, sys.s, store, 2) == Some(Outcome(at.s, MISS))
    ensures at.s.pending.Keys == {read} && at.s.hitQueue == []
  {
    hide ProbeFor, WrMissFetchOnWrite, Allocated, Block.Pin, FullStore, IsFull, FirstSector;
    StoreProbe(cfg, read, t, store);
    FirstAddresses(cfg, store);
    FullStoreLine(cfg, sys.s, store, 0, 2);
  }

  // ---- a write-through cache ----

  // a client's request to the second block of memory
  ghost predicate SecondBlock(cfg: Config, mf: MemFetch)
    requires cfg.lineSize > 0
  {
    mf.id.Client? && 128 <= mf.addr < 256 && mf.dataSize <= SECTOR_SIZE && WellFormed(cfg, mf)
  }

  // a store of a whole sector that finds a way for it is accepted
  lemma FullMissIsAccepted(cfg: Config, s: CacheState, mf: MemFetch, time: nat)
    requires Sized(cfg, s.tags) && OneLine(cfg) && mf.isWrite && IsFull(cfg, mf) && s.missQueue == []
    requires ProbeFor(cfg, s, mf).status == MISS && CacheAccess(cfg, s, mf, time).Some?
    ensures CacheAccess(cfg, s, mf, time).value.status == MISS
  {
    hide ProbeFor, TagAccess, WriteInto;
    ReprobeAgrees(cfg, s, mf, ProbeFor(cfg, s, mf).idx, time);
  }

  // so is a read, with nothing queued and no MSHR entry
  lemma ReadMissIsAccepted(cfg: Config, s: CacheState, mf: MemFetch, time: nat)
    requires Sized(cfg, s.tags) && OneLine(cfg) && !mf.isWrite && s.missQueue == [] && s.mshr == map[]
    requires ProbeFor(cfg, s, mf).status == MISS && CacheAccess(cfg, s, mf, time).Some?
    ensures CacheAccess(cfg, s, mf, time).value.status == MISS
  {
    hide ProbeFor, TagAccess, MshrAdd, Pin;
  }

  // the only line bears the block of a store, unpinned
  ghost predicate Holding(s: CacheState, bytes: set<nat>) {
    && |s.tags.lines| == 1 && s.tags.dirty == 1 && s.missQueue == [] && s.mshr == map[] && s.pending == map[]
    && var b := s.tags.lines[0];
       && b.tag == 0 && b.blockAddr == 0 && b.pins == 0 && b.sectors[0].status == MODIFIED && !b.IsReservedLine()
       && bytes <= b.dirtyBytes && b.lastAccess < TIME_SENTINEL && b.allocTime < TIME_SENTINEL
  }

  lemma StoreMisses(cfg: Config, store: MemFetch) returns (next: CacheSystem)
    requires OneLine(cfg) && FirstSector(cfg, store) && store.isWrite && IsFull(cfg, store)
    ensures Legal(cfg, Start(cfg), Access(store, 1)) && Step(cfg, Start(cfg), Access(store, 1)) == Some(next)
    ensures AcceptsWrite(cfg, Start(cfg), store, 1) && SystemInv(cfg, next)
    ensures Holding(next.s, store.bytes) && LinesOk(cfg, next.s.tags.lines) && next.queued == []
  {
    hide CoreInv, CacheAccess, ProbeFor, FirstSector, EntriesInOrder, Reads, AccessedLine, IsFull, AccessPackets;
    StartInv(cfg);
    StartIsEmpty(cfg);
    var s := Empty();
    assert Start(cfg).s == s && Start(cfg).queued == [];
    FirstIsPresentable(cfg, s, store);
    EmptyProbe(cfg, store);
    StepKeepsInv(cfg, Start(cfg), Access(store, 1));
    next := Step(cfg, Start(cfg), Access(store, 1)).value;
    FullMissIsAccepted(cfg, s, store, 1);
    AcceptedEffect(cfg, s, store, 1);
    FullMissPackets(cfg, s, store);
    FirstAddresses(cfg, store);
    StoredFirst(cfg, store, next.s);
  }

  lemma FirstIsPresentable(cfg: Config, s: CacheState, mf: MemFetch)
    requires OneLine(cfg) && FirstSector(cfg, mf) && s.pending == map[] && Sized(cfg, s.tags)
    ensures Presentable(cfg, s, mf, 1)
    ensures forall sys: CacheSystem :: sys.s == s ==> !Impossible(cfg, sys, Access(mf, 1))
  {
    FirstAddresses(cfg, mf);
  }

  lemma EmptyProbe(cfg: Config, mf: MemFetch)
    requires OneLine(cfg) && FirstSector(cfg, mf)
    ensures Sized(cfg, Empty().tags) && ProbeFor(cfg, Empty(), mf) == ProbeResult(MISS, 0)
  {
    hide ProbeTags, FirstSector;
    StartIsEmpty(cfg);
    FirstAddresses(cfg, mf);
    SoleProbe(cfg, Empty().tags, 0, 0, mf.isWrite);
  }

  lemma FullMissPackets(cfg: Config, s: CacheState, mf: MemFetch)
    requires OneLine(cfg) && mf.isWrite && IsFull(cfg, mf) && 0 < |s.tags.lines| && !s.tags.lines[0].IsModifiedLine()
    ensures AccessPackets(cfg, s, mf, ProbeResult(MISS, 0)) == []
  {
  }

  lemma StoredFirst(cfg: Config, store: MemFetch, s': CacheState)
    requires OneLine(cfg) && store.isWrite && IsFull(cfg, store) && cfg.BlockAddr(store.addr) == 0
    requires cfg.SectorOf(store) == 0 && Sized(cfg, Empty().tags)
    requires ProbeFor(cfg, Empty(), store) == ProbeResult(MISS, 0)
    requires CacheAccess(cfg, Empty(), store, 1) == Some(Outcome(s', MISS))
    ensures Holding(s', store.bytes) && LinesOk(cfg, s'.tags.lines)
  {
    hide ProbeTags, IsFull, LineOk, Config.BlockAddr, CacheAccess;
    var s := Empty();
    FullMissTags(cfg, s, store, 1, s');
    var w := Written(cfg, INITIAL_BLOCK.Allocate(SECTOR, 0, 0, 1, 0), store);
    TagAccessTakes(cfg, s.tags, 0, store, 1);
    var r := TagAccess(cfg, s.tags, 0, store, 1).value;
    hide TagAccess;
    assert [INITIAL_BLOCK][0 := INITIAL_BLOCK.Allocate(SECTOR, 0, 0, 1, 0)][0 := w] == [w];
    FreshIsOk(cfg, store.bytes);
  }

  lemma FullMissTags(cfg: Config, s: CacheState, mf: MemFetch, time: nat, s': CacheState)
    requires Sized(cfg, s.tags) && OneLine(cfg) && mf.isWrite && IsFull(cfg, mf) && s.missQueue == []
    requires ProbeFor(cfg, s, mf).status == MISS && CacheAccess(cfg, s, mf, time) == Some(Outcome(s', MISS))
    ensures var (r, idx) := (TagAccess(cfg, s.tags, ProbeFor(cfg, s, mf).idx, mf, time), ProbeFor(cfg, s, mf).idx);
      && r.Some? && s'.tags == WriteInto(cfg, r.value.tags, r.value.idx, mf)
      && s'.mshr == s.mshr && s'.pending == s.pending && (r.value.evicted.None? ==> s'.missQueue == [])
  {
    hide ProbeFor, TagAccess, WriteInto;
  }

  lemma FreshIsOk(cfg: Config, bytes: set<nat>)
    requires OneLine(cfg)
    ensures var w := INITIAL_BLOCK.Allocate(SECTOR, 0, 0, 1, 0).SetStatus(MODIFIED, 0).SetByteMask(bytes);
      LineOk(cfg, w, 0)
  {
    assert cfg.BlockAddr(0) == 0 && cfg.SetBase(0) == 0;
  }

  // a read of another block takes the line
  lemma OtherProbe(cfg: Config, s: CacheState, bytes: set<nat>, mf: MemFetch)
    requires OneLine(cfg) && cfg.wrPercent <= 100 && SecondBlock(cfg, mf) && Holding(s, bytes) && Sized(cfg, s.tags)
    ensures ProbeFor(cfg, s, mf) == ProbeResult(MISS, 0)
  {
    hide Block.IsReservedLine;
    assert cfg.BlockAddr(mf.addr) == 128 && cfg.BlockAddr(128) == 128 && cfg.SetBase(128) == 0;
    ProbeWithoutMatch(cfg, s.tags, 128, cfg.SectorOf(mf), mf.isWrite);
    assert cfg.NumLines() == 1;
    assert UsedWay(cfg, s.tags.dirty, s.tags.lines[0]) && !FreeWay(cfg, s.tags.dirty, s.tags.lines[0]);
    assert LastFree(cfg, s.tags, 0, 1) == LastFree(cfg, s.tags, 0, 0);
    assert Oldest(cfg, s.tags, 0, 0) == None;
  }

  lemma OtherIsPresentable(cfg: Config, s: CacheState, mf: MemFetch)
    requires OneLine(cfg) && SecondBlock(cfg, mf) && s.pending == map[] && Sized(cfg, s.tags)
    ensures Presentable(cfg, s, mf, 2) && !Fails(cfg, s, mf)
  {
  }

  lemma EvictingStep(cfg: Config, at: CacheSystem, store: MemFetch, other: MemFetch) returns (next: CacheSystem)
    requires OneLine(cfg) && cfg.writePolicy == WRITE_THROUGH && cfg.wrPercent <= 100 && SystemInv(cfg, at)
    requires FirstSector(cfg, store) && SecondBlock(cfg, other) && !other.isWrite
    requires Holding(at.s, store.bytes) && LinesOk(cfg, at.s.tags.lines) && at.queued == []
    ensures Legal(cfg, at, Access(other, 2)) && Step(cfg, at, Access(other, 2)) == Some(next)
    ensures forall k :: k in store.bytes ==> !Safe(cfg, next, 0, 0, k)
  {
    hide CoreInv, CacheAccess, ProbeFor, FirstSector, SecondBlock, EntriesInOrder, Reads, Resident, Carried, LinesOk,
         WithinCapacity;
    CoreIsSized(cfg, at.s);
    OtherIsPresentable(cfg, at.s, other);
    OtherProbe(cfg, at.s, store.bytes, other);
    AccessStep(cfg, at, other, 2);
    next := Step(cfg, at, Access(other, 2)).value;
    ReadMissIsAccepted(cfg, at.s, other, 2);
    AgainIsSector(cfg, store);
    FirstAddresses(cfg, store);
    forall k | k in store.bytes
      ensures !Safe(cfg, next, 0, 0, k)
    {
      ByteIsInSector(cfg, store, k);
      DirtyIsResident(cfg, at.s.tags.lines, 0, 0, k);
      AccessDropsExactlyWhen(cfg, at.s, other, 2, 0, k);
      assert next.queued[0..] == Added(at.s, next.s);
    }
  }

  /** A write-through cache sends a full-sector store down neither when it misses nor when
      its line is taken: the store is accepted, and a read of another block loses it. */
  lemma ThroughStoreIsLost(cfg: Config, store: MemFetch, other: MemFetch) returns (end: CacheSystem)
    requires OneLine(cfg) && cfg.writePolicy == WRITE_THROUGH && cfg.wrPercent <= 100
    requires FirstSector(cfg, store) && store.isWrite && IsFull(cfg, store)
    requires SecondBlock(cfg, other) && !other.isWrite
    ensures var events := [Access(store, 1), Access(other, 2)];
      && LegalRun(cfg, Start(cfg), events) && Run(cfg, Start(cfg), events) == Some(end)
      && AcceptsWrite(cfg, Start(cfg), store, 1)
    ensures forall k :: k in store.bytes ==> !Safe(cfg, end, 0, 0, k)
  {
    hide Start, Step, Legal, Safe, IsFull, FirstSector, SecondBlock, AcceptsWrite, SystemInv;
    var at := StoreMisses(cfg, store);
    end := EvictingStep(cfg, at, store, other);
    RunFirst(cfg, at, Access(other, 2), end, []);
    RunFirst(cfg, Start(cfg), Access(store, 1), at, [Access(other, 2)] + []);
    assert [Access(store, 1)] + ([Access(other, 2)] + []) == [Access(store, 1), Access(other, 2)];
  }

  // the bytes below n
  function Below(n: nat): (s: set<nat>)
    ensures |s| == n && forall k :: k in s <==> 0 <= k < n
  {
    if n == 0 then {} else Below(n - 1) + {n - 1}
  }

  lemma PartialStoreExists(cfg: Config, read: MemFetch) returns (store: MemFetch)
    requires OneLine(cfg) && read.bytes == Below(4)
    ensures FirstSector(cfg, store) && store.isWrite && !IsFull(cfg, store) && Lost(cfg, read, store, 8)
  {
    hide Below;
    store := MemFetch(Client(1), 8, 1, true, false, 0, {8});
    assert |store.bytes| == 1;
    assert store.addr % cfg.lineSize == 8;
  }

  lemma FullStoreExists(cfg: Config, read: MemFetch) returns (store: MemFetch)
    requires OneLine(cfg)
    ensures FirstSector(cfg, store) && store.isWrite && IsFull(cfg, store) && Lost(cfg, read, store, 0)
  {
    hide Below;
    store := MemFetch(Client(1), 0, 32, true, false, 0, Below(32));
    assert store.addr % cfg.lineSize == 0;
  }

  /** Such stores exist: after a read of bytes 0 to 3, a store of byte 8 loses it, and
      a store of the whole sector loses byte 0; a second store of either kind may follow. */
  lemma SuchStoresExist() returns (cfg: Config, read: MemFetch, partial: MemFetch, full: MemFetch)
    ensures OneLine(cfg) && cfg.writePolicy == WRITE_BACK && cfg.hitQueueSize > 0
    ensures FirstSector(cfg, read) && FirstSector(cfg, partial) && FirstSector(cfg, full)
    ensures !read.isWrite && partial.isWrite && full.isWrite
    ensures !IsFull(cfg, partial) && Lost(cfg, read, partial, 8) && IsFull(cfg, full) && Lost(cfg, read, full, 0)
  {
    hide Below, IsFull, Lost;
    cfg := Config(SECTOR, 128, 1, 1, LRU, WRITE_BACK, FETCH_ON_WRITE, 100, 4, 4, 4, 4, 32, _ => 0);
    read := MemFetch(Client(0), 0, 4, false, false, 0, Below(4));
    partial := PartialStoreExists(cfg, read);
    full := FullStoreExists(cfg, read);
  }

  /** So do a store and a read that make a write-through cache lose the store. */
  lemma SuchThroughStoresExist() returns (cfg: Config, store: MemFetch, other: MemFetch)
    ensures OneLine(cfg) && cfg.writePolicy == WRITE_THROUGH && cfg.wrPercent <= 100
    ensures FirstSector(cfg, store) && store.isWrite && IsFull(cfg, store) && 0 in store.bytes
    ensures SecondBlock(cfg, other) && !other.isWrite
  {
    hide Below, IsFull;
    cfg := Config(SECTOR, 128, 1, 1, LRU, WRITE_THROUGH, FETCH_ON_WRITE, 100, 4, 4, 4, 4, 32, _ => 0);
    var read := MemFetch(Client(0), 0, 4, false, false, 0, {});
    store := FullStoreExists(cfg, read);
    other := MemFetch(Client(2), 128, 4, false, false, 0, {});
    assert other.addr % cfg.lineSize == 0;
  }
}
