/** Runs of caches of whole lines: a write-back that names bytes nobody wrote to its block,
    and a read that fails an assertion. */
module LineRuns {
  import opened CacheTypes
  import opened Options
  import opened TagArrays
  import opened CacheModel
  import opened CacheLines
  import opened CacheAdmission
  import opened CacheOperations
  import opened CacheTraffic
  import opened CacheCore
  import opened CacheEffects
  import opened CacheDurability
  import opened CacheRuns
  import opened CacheGuarantees
  import opened CacheProvenance
  import opened RunSteps

  // one line, written back
  ghost predicate OneWay(cfg: Config) {
    && cfg.Valid() && cfg.cacheType == NORMAL && cfg.nset == 1 && cfg.assoc == 1 && cfg.writePolicy == WRITE_BACK
    && cfg.wrPercent <= 100 && cfg.mshrEntries > 0 && cfg.mshrMaxMerge > 0 && cfg.missQueueSize > 2
  }

  lemma OneLineOnly(cfg: Config)
    requires OneWay(cfg)
    ensures cfg.NumLines() == 1 && forall a :: cfg.SetBase(a) == 0
    ensures var s := InitialCache(cfg);
      && s.tags == Tags([INITIAL_BLOCK], 0) && s.missQueue == [] && s.mshr == map[] && s.pending == map[]
  {
    assert cfg.NumLines() == 1;
    assert InitialCache(cfg).tags.lines == [INITIAL_BLOCK];
  }

  // the probe of the only line
  lemma OnlyProbe(cfg: Config, s: CacheState, mf: MemFetch)
    requires OneWay(cfg) && Sized(cfg, s.tags)
    ensures |s.tags.lines| == 1
    ensures var (b, p) := (s.tags.lines[0], ProbeFor(cfg, s, mf));
      && (Holds(b, cfg.BlockAddr(mf.addr)) ==> p == ProbeResult(HitStatus(b.sectors[0], mf.isWrite), 0))
      && (!Holds(b, cfg.BlockAddr(mf.addr)) && (FreeWay(cfg, s.tags.dirty, b) || Takeable(cfg, s.tags.dirty, b)) ==>
            p == ProbeResult(MISS, 0))
  {
    OneLineOnly(cfg);
    BlockAddrTwice(cfg, mf.addr);
    hide Config.BlockAddr, FreeWay, Holds, HitStatus;
    var (tags, block) := (s.tags, cfg.BlockAddr(mf.addr));
    assert FirstMatch(tags.lines, block, 1, 1) == None;
    assert LastFree(cfg, tags, 0, 0) == None && Oldest(cfg, tags, 0, 0) == None;
  }

  ghost predicate Takeable(cfg: Config, dirty: int, b: Block) {
    UsedWay(cfg, dirty, b) && b.lastAccess < TIME_SENTINEL && b.allocTime < TIME_SENTINEL
  }

  // ---- stores of whole lines ----

  ghost predicate WholeStore(cfg: Config, mf: MemFetch, block: nat)
    requires cfg.lineSize > 0
  {
    && mf.id.Client? && mf.isWrite && IsFull(cfg, mf) && WellFormed(cfg, mf) && mf.dataSize <= cfg.lineSize
    && cfg.BlockAddr(mf.addr) == block
  }

  // the line bears the dirty bytes of the block, and possibly others
  ghost predicate Bears(s: CacheState, block: nat, bytes: set<nat>, time: nat) {
    && |s.tags.lines| == 1 && s.tags.dirty == 1 && s.mshr == map[] && s.pending == map[]
    && var b := s.tags.lines[0];
       && b.tag == block && b.blockAddr == block && b.pins == 0 && b.dirtyBytes == bytes
       && b.sectors[0].status == MODIFIED && b.sectors[1].status == INVALID && b.sectors[2].status == INVALID
       && b.sectors[3].status == INVALID && b.lastAccess == time && b.allocTime == time
  }

  lemma BearerIsTakeable(cfg: Config, s: CacheState, block: nat, bytes: set<nat>, time: nat)
    requires OneWay(cfg) && Bears(s, block, bytes, time) && time < TIME_SENTINEL
    ensures Takeable(cfg, s.tags.dirty, s.tags.lines[0]) && s.tags.lines[0].IsModifiedLine()
    ensures s.tags.lines[0].EvictedInfo(NORMAL) == Evicted(block, bytes, {0, 1, 2, 3})
  {
    OneLineOnly(cfg);
  }

  lemma MissIsAccepted(cfg: Config, s: CacheState, mf: MemFetch, time: nat)
    requires Sized(cfg, s.tags) && OneWay(cfg) && mf.isWrite && IsFull(cfg, mf) && |s.missQueue| < cfg.missQueueSize
    requires cfg.writeAllocate in {FETCH_ON_WRITE, LAZY_FETCH_ON_READ}
    requires ProbeFor(cfg, s, mf).status == MISS && CacheAccess(cfg, s, mf, time).Some?
    ensures CacheAccess(cfg, s, mf, time).value.status == MISS
  {
    hide ProbeFor, TagAccess, WriteInto, LazyWrite;
    ReprobeAgrees(cfg, s, mf, ProbeFor(cfg, s, mf).idx, time);
  }

  // what else a store of a whole line that misses leaves
  lemma MissLeaves(cfg: Config, s: CacheState, mf: MemFetch, time: nat)
    requires Sized(cfg, s.tags) && OneWay(cfg) && mf.isWrite && IsFull(cfg, mf)
    requires cfg.writeAllocate == FETCH_ON_WRITE && ProbeFor(cfg, s, mf) == ProbeResult(MISS, 0)
    requires CacheAccess(cfg, s, mf, time).Some? && CacheAccess(cfg, s, mf, time).value.status == MISS
    requires |s.tags.lines| == 1 && s.tags.dirty == if s.tags.lines[0].IsModifiedLine() then 1 else 0
    requires s.tags.lines[0].sectors[1].status == INVALID && s.tags.lines[0].sectors[2].status == INVALID
    requires s.tags.lines[0].sectors[3].status == INVALID
    ensures var s' := CacheAccess(cfg, s, mf, time).value.s;
      s'.mshr == s.mshr && s'.pending == s.pending && s'.tags.dirty == 1
  {
    hide ProbeTags, TagAccess, Config.BlockAddr, Block.IsModifiedLine;
    TagAccessTakes(cfg, s.tags, 0, mf, time);
    var r := TagAccess(cfg, s.tags, 0, mf, time).value;
    TakenDirt(cfg, s, mf, time);
    assert CacheAccess(cfg, s, mf, time).value.s.tags == WriteInto(cfg, r.tags, r.idx, mf);
  }

  // the counter after the line was taken
  lemma TakenDirt(cfg: Config, s: CacheState, mf: MemFetch, time: nat)
    requires Sized(cfg, s.tags) && cfg.cacheType == NORMAL && ProbeFor(cfg, s, mf) == ProbeResult(MISS, 0)
    requires s.tags.dirty == if s.tags.lines[0].IsModifiedLine() then 1 else 0
    requires s.tags.lines[0].sectors[1].status == INVALID && s.tags.lines[0].sectors[2].status == INVALID
    requires s.tags.lines[0].sectors[3].status == INVALID
    ensures TagAccess(cfg, s.tags, 0, mf, time).Some?
    ensures var r := TagAccess(cfg, s.tags, 0, mf, time).value;
      r.idx == 0 && r.tags.dirty == 0 && |r.tags.lines| == |s.tags.lines| && !r.tags.lines[0].IsModifiedLine()
  {
    hide ProbeTags, Config.BlockAddr;
    BlockAddrTwice(cfg, mf.addr);
  }

  lemma StoreStep(cfg: Config, sys: CacheSystem, mf: MemFetch, block: nat, time: nat) returns (next: CacheSystem)
    requires OneWay(cfg) && cfg.writeAllocate == FETCH_ON_WRITE && SystemInv(cfg, sys) && WholeStore(cfg, mf, block)
    requires sys.s.mshr == map[] && sys.s.pending == map[] && |sys.s.missQueue| < cfg.missQueueSize
    requires time < TIME_SENTINEL && |sys.s.tags.lines| == 1 && ProbeFor(cfg, sys.s, mf) == ProbeResult(MISS, 0)
    requires var b := sys.s.tags.lines[0];
      && sys.s.tags.dirty == (if b.IsModifiedLine() then 1 else 0)
      && b.sectors[1].status == INVALID && b.sectors[2].status == INVALID && b.sectors[3].status == INVALID
    ensures Legal(cfg, sys, Access(mf, time)) && Step(cfg, sys, Access(mf, time)) == Some(next) && SystemInv(cfg, next)
    ensures AcceptsWrite(cfg, sys, mf, time) && Bears(next.s, block, sys.s.tags.lines[0].dirtyBytes + mf.bytes, time)
    ensures var b := sys.s.tags.lines[0];
      && Added(sys.s, next.s) == (if b.IsModifiedLine() then [WriteBackPacket(b.EvictedInfo(NORMAL))] else [])
      && next.s.missQueue == sys.s.missQueue + Added(sys.s, next.s)
  {
    hide CoreInv, CacheAccess, ProbeFor, EntriesInOrder, Reads, AccessedLine, AccessPackets, Owed, IsFull, Sized,
         Block.IsModifiedLine, Config.BlockAddr, WellFormed;
    CoreIsSized(cfg, sys.s);
    StoreIsPresentable(cfg, sys.s, mf, block, time);
    AccessStep(cfg, sys, mf, time);
    next := Step(cfg, sys, Access(mf, time)).value;
    MissIsAccepted(cfg, sys.s, mf, time);
    MissLeaves(cfg, sys.s, mf, time);
    AcceptedEffect(cfg, sys.s, mf, time);
    AccessEffect(cfg, sys.s, mf, time);
    StorePackets(cfg, sys.s, mf);
    StoredBearer(cfg, sys.s.tags.lines[0], mf, time);
  }

  lemma StoreIsPresentable(cfg: Config, s: CacheState, mf: MemFetch, block: nat, time: nat)
    requires OneWay(cfg) && WholeStore(cfg, mf, block) && s.pending == map[] && Sized(cfg, s.tags)
    requires time < TIME_SENTINEL
    ensures Presentable(cfg, s, mf, time) && !Fails(cfg, s, mf)
  {
  }

  lemma StorePackets(cfg: Config, s: CacheState, mf: MemFetch)
    requires OneWay(cfg) && cfg.writeAllocate == FETCH_ON_WRITE && mf.isWrite && IsFull(cfg, mf) && |s.tags.lines| == 1
    ensures var b := s.tags.lines[0];
      AccessPackets(cfg, s, mf, ProbeResult(MISS, 0))
      == if b.IsModifiedLine() then [WriteBackPacket(b.EvictedInfo(NORMAL))] else []
  {
  }

  lemma StoredBearer(cfg: Config, b: Block, mf: MemFetch, time: nat)
    requires OneWay(cfg) && cfg.writeAllocate == FETCH_ON_WRITE && mf.isWrite && IsFull(cfg, mf)
    requires b.sectors[1].status == INVALID && b.sectors[2].status == INVALID && b.sectors[3].status == INVALID
    ensures var (w, block) := (AccessedLine(cfg, b, mf, MISS, time), cfg.BlockAddr(mf.addr));
      && w.tag == block && w.blockAddr == block && w.pins == 0 && w.dirtyBytes == b.dirtyBytes + mf.bytes
      && w.sectors[0].status == MODIFIED && w.sectors[1].status == INVALID && w.sectors[2].status == INVALID
      && w.sectors[3].status == INVALID && w.lastAccess == time && w.allocTime == time
  {
  }

  // a store to another block than the one borne takes its line
  lemma TakingStep(cfg: Config, sys: CacheSystem, mf: MemFetch, block: nat, time: nat, held: nat, bytes: set<nat>,
                   before: nat)
    returns (next: CacheSystem)
    requires OneWay(cfg) && cfg.writeAllocate == FETCH_ON_WRITE && SystemInv(cfg, sys) && WholeStore(cfg, mf, block)
    requires Bears(sys.s, held, bytes, before) && before < time < TIME_SENTINEL && held != block
    requires |sys.s.missQueue| < cfg.missQueueSize
    ensures Legal(cfg, sys, Access(mf, time)) && Step(cfg, sys, Access(mf, time)) == Some(next) && SystemInv(cfg, next)
    ensures AcceptsWrite(cfg, sys, mf, time) && Bears(next.s, block, bytes + mf.bytes, time)
    ensures next.queued == sys.queued + [WriteBackPacket(Evicted(held, bytes, {0, 1, 2, 3}))]
    ensures |next.s.missQueue| == |sys.s.missQueue| + 1
  {
    hide CoreInv, SystemInv, Step, Legal, AcceptsWrite, WholeStore, ProbeFor, Takeable, Block.IsModifiedLine,
         Block.EvictedInfo;
    InvIsCoreSized(cfg, sys);
    BearerIsTakeable(cfg, sys.s, held, bytes, before);
    OnlyProbe(cfg, sys.s, mf);
    StoresTo(cfg, mf, block);
    next := StoreStep(cfg, sys, mf, block, time);
    QueuedIs(cfg, sys, Access(mf, time));
  }

  lemma InvIsCoreSized(cfg: Config, sys: CacheSystem)
    requires SystemInv(cfg, sys)
    ensures Sized(cfg, sys.s.tags)
  {
  }

  lemma StoresTo(cfg: Config, mf: MemFetch, block: nat)
    requires cfg.lineSize > 0 && WholeStore(cfg, mf, block)
    ensures cfg.BlockAddr(mf.addr) == block
  {
  }

  lemma FirstStep(cfg: Config, mf: MemFetch, block: nat) returns (next: CacheSystem)
    requires OneWay(cfg) && cfg.writeAllocate == FETCH_ON_WRITE && WholeStore(cfg, mf, block)
    ensures Legal(cfg, Start(cfg), Access(mf, 1)) && Step(cfg, Start(cfg), Access(mf, 1)) == Some(next)
    ensures SystemInv(cfg, next) && Bears(next.s, block, mf.bytes, 1) && next.queued == [] && next.s.missQueue == []
  {
    hide CoreInv, SystemInv, Step, Legal, AcceptsWrite, WholeStore, ProbeFor, Takeable, InitialCache;
    StartInv(cfg);
    OneLineOnly(cfg);
    InvIsCoreSized(cfg, Start(cfg));
    OnlyProbe(cfg, Start(cfg).s, mf);
    next := StoreStep(cfg, Start(cfg), mf, block, 1);
    QueuedIs(cfg, Start(cfg), Access(mf, 1));
    assert {} + mf.bytes == mf.bytes;
  }

  // a byte of the first store is neither written to the second block nor fetched for it
  lemma StrayByte(cfg: Config, a: MemFetch, b: MemFetch, c: MemFetch, k: nat)
    requires cfg.lineSize > 0 && k !in b.bytes
    requires cfg.BlockAddr(a.addr) != cfg.BlockAddr(b.addr) && cfg.BlockAddr(c.addr) != cfg.BlockAddr(b.addr)
    ensures !NamedBy(cfg, Start(cfg), [Access(a, 1), Access(b, 2), Access(c, 3)], cfg.BlockAddr(b.addr), k)
  {
    hide Step, AcceptsWrite, Start, Config.BlockAddr;
    var (e1, e2, e3) := (Access(a, 1), Access(b, 2), Access(c, 3));
    assert [e1, e2, e3][1..] == [e2, e3] && [e2, e3][1..] == [e3] && [e3][1..] == [];
    var block := cfg.BlockAddr(b.addr);
    assert forall sys: CacheSystem :: !Names(cfg, sys, e1, block, k) && !Names(cfg, sys, e2, block, k)
                                      && !Names(cfg, sys, e3, block, k);
    assert forall sys: CacheSystem :: !NamedBy(cfg, sys, [], block, k);
    assert forall sys: CacheSystem :: !NamedBy(cfg, sys, [e3], block, k);
    assert forall sys: CacheSystem :: !NamedBy(cfg, sys, [e2, e3], block, k);
  }

  /** A line allocated anew keeps the dirty mask of the block it held: after stores to two
      blocks, the write-back of the second names every byte written to the first, though
      nobody wrote them to it and nothing was fetched for it. */
  lemma WholeLineNamesStrayBytes(cfg: Config, a: MemFetch, b: MemFetch, c: MemFetch) returns (end: CacheSystem)
    requires OneWay(cfg) && cfg.writeAllocate == FETCH_ON_WRITE
    requires WholeStore(cfg, a, cfg.BlockAddr(a.addr)) && WholeStore(cfg, b, cfg.BlockAddr(b.addr))
    requires WholeStore(cfg, c, cfg.BlockAddr(c.addr))
    requires cfg.BlockAddr(a.addr) != cfg.BlockAddr(b.addr) && cfg.BlockAddr(c.addr) != cfg.BlockAddr(b.addr)
    ensures var events := [Access(a, 1), Access(b, 2), Access(c, 3)];
      && LegalRun(cfg, Start(cfg), events) && Run(cfg, Start(cfg), events) == Some(end)
      && WriteBackPacket(Evicted(cfg.BlockAddr(b.addr), a.bytes + b.bytes, {0, 1, 2, 3})) in end.queued
      && forall k :: k in a.bytes && k !in b.bytes ==> !NamedBy(cfg, Start(cfg), events, cfg.BlockAddr(b.addr), k)
  {
    hide Start, Step, Legal, SystemInv, WholeStore, AcceptsWrite, Config.BlockAddr, NamedBy, Bears;
    var s1 := FirstStep(cfg, a, cfg.BlockAddr(a.addr));
    var s2 := TakingStep(cfg, s1, b, cfg.BlockAddr(b.addr), 2, cfg.BlockAddr(a.addr), a.bytes, 1);
    end := TakingStep(cfg, s2, c, cfg.BlockAddr(c.addr), 3, cfg.BlockAddr(b.addr), a.bytes + b.bytes, 2);
    forall k | k in a.bytes && k !in b.bytes
      ensures !NamedBy(cfg, Start(cfg), [Access(a, 1), Access(b, 2), Access(c, 3)], cfg.BlockAddr(b.addr), k)
    {
      StrayByte(cfg, a, b, c, k);
    }
    var (e1, e2, e3) := (Access(a, 1), Access(b, 2), Access(c, 3));
    RunFirst(cfg, s2, e3, end, []);
    RunFirst(cfg, s1, e2, s2, [e3] + []);
    RunFirst(cfg, Start(cfg), e1, s1, [e2] + ([e3] + []));
    assert [e1] + ([e2] + ([e3] + [])) == [e1, e2, e3];
  }

  // ---- a read of a line partly written ----

  // a store that leaves a byte of its 32-byte sector, and one of the line, unwritten
  ghost predicate PartStore(cfg: Config, mf: MemFetch)
    requires cfg.lineSize > 0
  {
    && mf.id.Client? && mf.isWrite && WellFormed(cfg, mf) && mf.dataSize <= cfg.lineSize && !IsFull(cfg, mf)
    && exists k :: mf.sector * SECTOR_SIZE <= k < (mf.sector + 1) * SECTOR_SIZE && k !in mf.bytes
  }

  lemma PartLine(cfg: Config, mf: MemFetch, time: nat)
    requires OneWay(cfg) && cfg.writeAllocate == LAZY_FETCH_ON_READ && PartStore(cfg, mf)
    ensures var w := AccessedLine(cfg, INITIAL_BLOCK, mf, MISS, time);
      Holds(w, cfg.BlockAddr(mf.addr)) && w.sectors[0].status == MODIFIED && !w.sectors[0].readable
  {
    hide Config.BlockAddr;
    var t := Took(cfg, INITIAL_BLOCK, MISS, mf, time);
    var flagged := LazyFlags(cfg, t.SetStatus(MODIFIED, 0).SetByteMask(mf.bytes), mf, MISS);
    var k :| mf.sector * SECTOR_SIZE <= k < (mf.sector + 1) * SECTOR_SIZE && k !in mf.bytes;
    assert flagged.dirtyBytes == mf.bytes;
    assert !SectorFullyDirty(flagged, mf.sector);
  }

  lemma PartIsPresentable(cfg: Config, s: CacheState, mf: MemFetch)
    requires OneWay(cfg) && PartStore(cfg, mf) && s.pending == map[] && Sized(cfg, s.tags)
    ensures Presentable(cfg, s, mf, 1) && !Fails(cfg, s, mf)
  {
  }

  lemma LazyMissIsAccepted(cfg: Config, s: CacheState, mf: MemFetch, time: nat)
    requires Sized(cfg, s.tags) && OneWay(cfg) && mf.isWrite && s.missQueue == []
    requires cfg.writeAllocate == LAZY_FETCH_ON_READ && ProbeFor(cfg, s, mf).status == MISS
    requires CacheAccess(cfg, s, mf, time).Some?
    ensures var o := CacheAccess(cfg, s, mf, time).value;
      o.status == MISS && o.s.mshr == s.mshr && o.s.pending == s.pending
  {
    hide ProbeFor, TagAccess, LazyWrite;
    ReprobeAgrees(cfg, s, mf, ProbeFor(cfg, s, mf).idx, time);
  }

  lemma PartPackets(cfg: Config, s: CacheState, mf: MemFetch)
    requires OneWay(cfg) && cfg.writeAllocate == LAZY_FETCH_ON_READ && mf.isWrite && s.tags.lines == [INITIAL_BLOCK]
    ensures AccessPackets(cfg, s, mf, ProbeResult(MISS, 0)) == []
  {
  }

  lemma PartStep(cfg: Config, store: MemFetch) returns (next: CacheSystem)
    requires OneWay(cfg) && cfg.writeAllocate == LAZY_FETCH_ON_READ && PartStore(cfg, store)
    ensures Legal(cfg, Start(cfg), Access(store, 1)) && Step(cfg, Start(cfg), Access(store, 1)) == Some(next)
    ensures SystemInv(cfg, next) && next.s.missQueue == [] && next.s.mshr == map[] && next.s.pending == map[]
    ensures |next.s.tags.lines| == 1
    ensures var w := next.s.tags.lines[0];
      Holds(w, cfg.BlockAddr(store.addr)) && w.sectors[0].status == MODIFIED && !w.sectors[0].readable
  {
    hide CoreInv, CacheAccess, ProbeFor, EntriesInOrder, Reads, AccessedLine, AccessPackets, Owed, PartStore, Sized,
         Config.BlockAddr, InitialCache, Takeable;
    StartInv(cfg);
    OneLineOnly(cfg);
    var s := Start(cfg).s;
    CoreIsSized(cfg, s);
    PartIsPresentable(cfg, s, store);
    PartIsStore(cfg, store);
    OnlyProbe(cfg, s, store);
    AccessStep(cfg, Start(cfg), store, 1);
    next := Step(cfg, Start(cfg), Access(store, 1)).value;
    LazyMissIsAccepted(cfg, s, store, 1);
    AccessEffect(cfg, s, store, 1);
    PartPackets(cfg, s, store);
    PartLine(cfg, store, 1);
  }

  lemma PartIsStore(cfg: Config, mf: MemFetch)
    requires cfg.lineSize > 0 && PartStore(cfg, mf)
    ensures mf.isWrite
  {
  }

  /** LAZY_FETCH_ON_READ over whole lines: after a store to part of a line, a read of that
      line fails the assertion of tag_array::access on the cache type. */
  lemma LazyLineFails(cfg: Config, store: MemFetch, read: MemFetch)
    requires OneWay(cfg) && cfg.writeAllocate == LAZY_FETCH_ON_READ && PartStore(cfg, store)
    requires read.id.Client? && !read.isWrite && WellFormed(cfg, read) && read.dataSize <= cfg.lineSize
    requires cfg.BlockAddr(read.addr) == cfg.BlockAddr(store.addr)
    ensures LegalRun(cfg, Start(cfg), [Access(store, 1), Access(read, 2)])
    ensures Run(cfg, Start(cfg), [Access(store, 1), Access(read, 2)]) == None
  {
    hide Start, SystemInv, CacheAccess, PartStore, Config.BlockAddr, WellFormed;
    var at := PartStep(cfg, store);
    InvIsCoreSized(cfg, at);
    OnlyProbe(cfg, at.s, read);
    assert Fails(cfg, at.s, read);
    AccessStep(cfg, at, read, 2);
    var events := [Access(store, 1), Access(read, 2)];
    assert events[1..] == [Access(read, 2)] && events[1..][1..] == [];
  }

  // ---- such requests ----

  // the bytes from n to m
  function Bytes(n: nat, m: nat): (s: set<nat>)
    requires n <= m
    ensures |s| == m - n && forall k :: k in s <==> n <= k < m
  {
    if n == m then {} else Bytes(n, m - 1) + {m - 1}
  }

  lemma StoreOfLine(cfg: Config, block: nat) returns (mf: MemFetch)
    requires cfg.cacheType == NORMAL && cfg.lineSize == 64 && block in {0, 64}
    ensures WholeStore(cfg, mf, block) && mf.bytes == Bytes(block, block + 64)
  {
    hide Bytes;
    mf := MemFetch(Client(0), block, 64, true, false, 0, Bytes(block, block + 64));
    assert block % 64 == 0;
  }

  lemma StoreOfByte(cfg: Config) returns (store: MemFetch)
    requires cfg.cacheType == NORMAL && cfg.lineSize == 64
    ensures PartStore(cfg, store) && store.addr == 0
  {
    store := MemFetch(Client(0), 0, 1, true, false, 0, {0});
    assert store.sector * SECTOR_SIZE <= 1 && 1 !in store.bytes;
    assert |store.bytes| == 1;
  }

  lemma WayOf(allocate: WriteAllocatePolicy) returns (cfg: Config)
    ensures OneWay(cfg) && cfg.writeAllocate == allocate && cfg.lineSize == 64
  {
    cfg := Config(NORMAL, 64, 1, 1, LRU, WRITE_BACK, allocate, 100, 4, 4, 4, 4, 32, _ => 0);
  }

  /** There are such stores and reads: with lines of 64 bytes, byte 0 strays into the
      write-back of the second line. */
  lemma SuchLinesExist()
    returns (cfg: Config, a: MemFetch, b: MemFetch, lazy: Config, store: MemFetch, read: MemFetch)
    ensures OneWay(cfg) && cfg.writeAllocate == FETCH_ON_WRITE
    ensures WholeStore(cfg, a, 0) && WholeStore(cfg, b, 64) && 0 in a.bytes && 0 !in b.bytes
    ensures OneWay(lazy) && lazy.writeAllocate == LAZY_FETCH_ON_READ && PartStore(lazy, store)
    ensures read.id.Client? && !read.isWrite && WellFormed(lazy, read) && read.dataSize <= lazy.lineSize
    ensures lazy.BlockAddr(read.addr) == lazy.BlockAddr(store.addr)
  {
    hide Bytes, OneWay, WholeStore, PartStore;
    cfg := WayOf(FETCH_ON_WRITE);
    lazy := WayOf(LAZY_FETCH_ON_READ);
    WaysAreLines(cfg);
    WaysAreLines(lazy);
    a := StoreOfLine(cfg, 0);
    b := StoreOfLine(cfg, 64);
    store := StoreOfByte(lazy);
    read := MemFetch(Client(1), 0, 1, false, false, 0, {0});
  }

  lemma WaysAreLines(cfg: Config)
    requires OneWay(cfg)
    ensures cfg.cacheType == NORMAL
  {
  }
}
