/** Runs of a LOCAL_WB_GLOBAL_WT cache that lose written bytes and leave a stale dirty
    count, and that answer a read although nothing was fetched for it. */
module MixedRuns {
  import opened CacheTypes
  import opened Options
  import opened TagArrays
  import opened CacheModel
  import opened CacheLines
  import opened CacheInvariant
  import opened CacheOperations
  import opened CacheCore
  import opened CacheEffects
  import opened CacheRuns
  import opened CacheGuarantees
  import opened RunSteps

  // one set of two ways
  ghost predicate TwoWays(cfg: Config) {
    && cfg.Valid() && cfg.cacheType == NORMAL && cfg.nset == 1 && cfg.assoc == 2
    && cfg.writePolicy == LOCAL_WB_GLOBAL_WT
    && cfg.mshrEntries > 0 && cfg.mshrMaxMerge > 1 && cfg.missQueueSize > 1 && cfg.hitQueueSize > 0
  }

  // a client's request to the first block of memory that takes one cycle to answer
  ghost predicate FirstBlock(cfg: Config, mf: MemFetch)
    requires cfg.lineSize > 0
  {
    && mf.id.Client? && mf.addr < cfg.lineSize && WellFormed(cfg, mf)
    && mf.dataSize <= cfg.portWidth && mf.dataSize <= cfg.lineSize
  }

  lemma FirstAddresses(cfg: Config, mf: MemFetch)
    requires cfg.Valid() && cfg.cacheType == NORMAL && FirstBlock(cfg, mf)
    ensures cfg.BlockAddr(mf.addr) == 0 && cfg.MshrAddr(mf.addr) == 0 && cfg.SectorOf(mf) == 0
  {
  }

  lemma TakesOneCycle(cfg: Config, mf: MemFetch)
    requires cfg.Valid() && FirstBlock(cfg, mf)
    ensures HitLatency(cfg, mf) == 1
  {
    if mf.dataSize == cfg.portWidth {
      assert mf.dataSize / cfg.portWidth == 1 && mf.dataSize % cfg.portWidth == 0;
    } else {
      assert mf.dataSize / cfg.portWidth == 0 && mf.dataSize % cfg.portWidth == mf.dataSize;
    }
  }

  lemma TwoProbe(cfg: Config, tags: Tags, addr: nat, isWrite: bool)
    requires Sized(cfg, tags) && cfg.nset == 1 && cfg.assoc == 2 && cfg.BlockAddr(addr) == 0
    ensures |tags.lines| == 2
    ensures !Holds(tags.lines[0], 0) && Holds(tags.lines[1], 0) ==>
      ProbeTags(cfg, tags, addr, 0, isWrite) == ProbeResult(HitStatus(tags.lines[1].sectors[0], isWrite), 1)
    ensures !Holds(tags.lines[0], 0) && !Holds(tags.lines[1], 0) && FreeWay(cfg, tags.dirty, tags.lines[1]) ==>
      ProbeTags(cfg, tags, addr, 0, isWrite) == ProbeResult(MISS, 1)
  {
    assert cfg.SetBase(addr) == 0;
  }

  lemma FirstWayProbe(cfg: Config, tags: Tags, addr: nat, isWrite: bool)
    requires Sized(cfg, tags) && cfg.nset == 1 && cfg.assoc == 2 && cfg.BlockAddr(addr) == 0 && |tags.lines| == 2
    requires !Holds(tags.lines[0], 0) && !Holds(tags.lines[1], 0)
    requires FreeWay(cfg, tags.dirty, tags.lines[0]) && !FreeWay(cfg, tags.dirty, tags.lines[1])
    ensures ProbeTags(cfg, tags, addr, 0, isWrite) == ProbeResult(MISS, 0)
  {
    hide FreeWay, Holds;
    assert cfg.SetBase(addr) == 0;
    assert FirstMatch(tags.lines, 0, 2, 2) == FirstMatch(tags.lines, 0, 1, 2)
           == FirstMatch(tags.lines, 0, 0, 2) == None;
    assert LastFree(cfg, tags, 0, 2) == LastFree(cfg, tags, 0, 1) == Some(0);
  }

  // ---- lines ----

  // a line of the first block: its state and its pins
  ghost predicate Is(b: Block, status: Status, pins: nat) {
    && b.tag == 0 && b.sectors[0].status == status && b.sectors[0].readable && !b.sectors[0].modifiedOnFill
    && b.sectors[1].status == INVALID && b.sectors[2].status == INVALID && b.sectors[3].status == INVALID
    && b.pins == pins
  }

  lemma IsTells(b: Block, status: Status, pins: nat)
    requires Is(b, status, pins)
    ensures Holds(b, 0) <==> status != INVALID
    ensures b.IsModifiedLine() <==> status == MODIFIED
    ensures b.IsReservedLine() <==> status == RESERVED
    ensures b.IsInvalidLine() <==> status == INVALID
    ensures b.IsPinned() <==> pins > 0
  {
  }

  lemma Changes(b: Block, status: Status, pins: nat, time: nat, bytes: set<nat>)
    requires Is(b, status, pins)
    ensures Is(b.Allocate(NORMAL, 0, 0, time, 0), RESERVED, 0) && Is(b.Pin(), status, pins + 1)
    ensures pins > 0 ==> Is(b.Unpin(), status, pins - 1)
    ensures Is(b.Fill(NORMAL, 0, bytes), VALID, pins)
    ensures Is(b.Touch(time), status, pins) && Is(b.SetStatus(INVALID, 0), INVALID, pins)
    ensures Is(b.SetStatus(MODIFIED, 0).SetByteMask(bytes), MODIFIED, pins) && Is(b.SetReadable(true, 0), status, pins)
  {
  }

  lemma InitialIs()
    ensures Is(INITIAL_BLOCK, INVALID, 0)
  {
  }

  // ---- fetching the block ----

  // nothing pending, the first way as x and the second as y
  function Idle(x: Block, y: Block, dirty: int): CacheState {
    CacheState(Tags([x, y], dirty), map[], [], [], [], [], map[], map[], 0)
  }

  lemma StartIsIdle(cfg: Config)
    requires TwoWays(cfg)
    ensures InitialCache(cfg) == Idle(INITIAL_BLOCK, INITIAL_BLOCK, 0) && cfg.NumLines() == 2
  {
    assert InitialCache(cfg).tags.lines == [INITIAL_BLOCK, INITIAL_BLOCK];
  }

  // the block was fetched for the read, which is not collected yet
  function Fetched(read: MemFetch, y: Block): CacheState {
    CacheState(Tags([INITIAL_BLOCK, y], 0), map[0 := [read]], [0], [], [], [], map[], map[read := 1], 0)
  }

  function Waiting(read: MemFetch, y: Block, queue: seq<Packet>): CacheState {
    CacheState(Tags([INITIAL_BLOCK, y], 0), map[0 := [read]], [], queue, [], [], map[read := Extra(0, 1)],
               map[read := 1], 0)
  }

  lemma ReadAllocates(cfg: Config, read: MemFetch, time: nat) returns (y: Block)
    requires TwoWays(cfg) && FirstBlock(cfg, read) && !read.isWrite
    ensures var s := Idle(INITIAL_BLOCK, INITIAL_BLOCK, 0);
      && Sized(cfg, s.tags) && ProbeFor(cfg, s, read) == ProbeResult(MISS, 1) && Is(y, RESERVED, 0)
      && TagAccess(cfg, s.tags, 1, read, time) == Some(AccessResult(Tags([INITIAL_BLOCK, y], 0), MISS, 1, None))
  {
    hide ProbeTags, FirstBlock, Is, Block.Allocate;
    StartIsIdle(cfg);
    FirstAddresses(cfg, read);
    InitialIs();
    Changes(INITIAL_BLOCK, INVALID, 0, time, {});
    TwoProbe(cfg, Idle(INITIAL_BLOCK, INITIAL_BLOCK, 0).tags, 0, false);
    y := INITIAL_BLOCK.Allocate(NORMAL, 0, 0, time, 0);
    assert [INITIAL_BLOCK, INITIAL_BLOCK][1 := y] == [INITIAL_BLOCK, y];
  }

  lemma FetchingIsWaiting(cfg: Config, read: MemFetch, y: Block)
    requires cfg.lineSize > 0 && cfg.MshrAddr(read.addr) == 0
    ensures Fetching(cfg, Idle(INITIAL_BLOCK, INITIAL_BLOCK, 0), Tags([INITIAL_BLOCK, y], 0), read, 1)
            == Waiting(read, y.Pin(), [ReadPacket(read, 0)])
  {
    hide Config.MshrAddr, Block.Pin;
    assert [] + [read] == [read] && [] + [ReadPacket(read, 0)] == [ReadPacket(read, 0)];
    assert [INITIAL_BLOCK, y][1 := y.Pin()] == [INITIAL_BLOCK, y.Pin()];
  }

  lemma ReadStep(cfg: Config, read: MemFetch) returns (next: CacheSystem, y: Block)
    requires TwoWays(cfg) && FirstBlock(cfg, read) && !read.isWrite
    ensures Legal(cfg, Start(cfg), Access(read, 1)) && Step(cfg, Start(cfg), Access(read, 1)) == Some(next)
    ensures next.s == Waiting(read, y, [ReadPacket(read, 0)]) && next.atMemory == {} && Is(y, RESERVED, 1)
  {
    hide ProbeFor, TagAccess, CacheAccess, Fetching, Is, Block.Pin, Config.MshrAddr, Config.BlockAddr;
    StartIsIdle(cfg);
    FirstAddresses(cfg, read);
    var y0 := ReadAllocates(cfg, read, 1);
    ReadMissFetches(cfg, Idle(INITIAL_BLOCK, INITIAL_BLOCK, 0), read, 1, Tags([INITIAL_BLOCK, y0], 0), 1);
    FetchingIsWaiting(cfg, read, y0);
    Changes(y0, RESERVED, 0, 0, {});
    y := y0.Pin();
    next := Step(cfg, Start(cfg), Access(read, 1)).value;
  }

  lemma SendStep(cfg: Config, sys: CacheSystem, read: MemFetch, y: Block) returns (next: CacheSystem)
    requires TwoWays(cfg) && sys.s == Waiting(read, y, [ReadPacket(read, 0)]) && sys.atMemory == {}
    ensures Legal(cfg, sys, Cycle(false)) && Step(cfg, sys, Cycle(false)) == Some(next)
    ensures next.s == Waiting(read, y, []) && next.atMemory == {read}
  {
    hide CacheCycle;
    QuietCycle(sys.s);
    StartIsIdle(cfg);
    next := Step(cfg, sys, Cycle(false)).value;
  }

  lemma FillStep(cfg: Config, sys: CacheSystem, read: MemFetch, y: Block) returns (next: CacheSystem, y': Block)
    requires TwoWays(cfg) && FirstBlock(cfg, read) && Is(y, RESERVED, 1)
    requires sys.s == Waiting(read, y, []) && sys.atMemory == {read}
    ensures Legal(cfg, sys, Fill(read)) && Step(cfg, sys, Fill(read)) == Some(next)
    ensures next.s == Fetched(read, y') && Is(y', VALID, 1) && next.atMemory == {}
  {
    hide Is, Block.Fill, FirstBlock;
    StartIsIdle(cfg);
    FirstAddresses(cfg, read);
    Changes(y, RESERVED, 1, 0, read.bytes);
    y' := y.Fill(NORMAL, 0, read.bytes);
    IsTells(y, RESERVED, 1);
    IsTells(y', VALID, 1);
    assert [INITIAL_BLOCK, y][1 := y'] == [INITIAL_BLOCK, y'];
    assert FillTags(cfg, sys.s.tags, 1, 0, read.bytes) == Tags([INITIAL_BLOCK, y'], 0);
    assert map[read := Extra(0, 1)] - {read} == map[];
    assert [] + [0] == [0];
    next := Step(cfg, sys, Fill(read)).value;
  }

  // the three first events of both runs
  lemma FetchRun(cfg: Config, read: MemFetch) returns (sys: CacheSystem, y: Block)
    requires TwoWays(cfg) && FirstBlock(cfg, read) && !read.isWrite
    ensures sys.s == Fetched(read, y) && Is(y, VALID, 1) && sys.atMemory == {} && sys.queued == [ReadPacket(read, 0)]
    ensures forall rest :: LegalRun(cfg, sys, rest) ==>
      var events := [Access(read, 1), Cycle(false), Fill(read)] + rest;
      LegalRun(cfg, Start(cfg), events) && Run(cfg, Start(cfg), events) == Run(cfg, sys, rest)
  {
    hide Start, Step, Legal, Is, FirstBlock;
    var first, y1 := ReadStep(cfg, read);
    var second := SendStep(cfg, first, read, y1);
    sys, y := FillStep(cfg, second, read, y1);
    StartIsIdle(cfg);
    LedgerIs(cfg, Start(cfg), Access(read, 1));
    LedgerIs(cfg, first, Cycle(false));
    LedgerIs(cfg, second, Fill(read));
    StartIsBare(cfg);
    var (e1, e2, e3) := (Access(read, 1), Cycle(false), Fill(read));
    forall rest | LegalRun(cfg, sys, rest)
      ensures LegalRun(cfg, Start(cfg), [e1, e2, e3] + rest)
      ensures Run(cfg, Start(cfg), [e1, e2, e3] + rest) == Run(cfg, sys, rest)
    {
      RunFirst(cfg, second, e3, sys, rest);
      RunFirst(cfg, first, e2, second, [e3] + rest);
      RunFirst(cfg, Start(cfg), e1, first, [e2] + ([e3] + rest));
      assert [e1] + ([e2] + ([e3] + rest)) == [e1, e2, e3] + rest;
    }
  }

  lemma StartIsBare(cfg: Config)
    ensures Start(cfg).s == InitialCache(cfg) && Start(cfg).queued == [] && InitialCache(cfg).missQueue == []
  {
  }

  // ---- a local write, then a global one ----

  lemma CollectRead(cfg: Config, sys: CacheSystem, read: MemFetch, y: Block) returns (next: CacheSystem, y': Block)
    requires TwoWays(cfg) && sys.s == Fetched(read, y) && Is(y, VALID, 1)
    ensures Legal(cfg, sys, Next) && Step(cfg, sys, Next) == Some(next)
    ensures next.s == Idle(INITIAL_BLOCK, y', 0) && Is(y', VALID, 0)
  {
    hide Is, Block.Unpin;
    StartIsIdle(cfg);
    Changes(y, VALID, 1, 0, {});
    IsTells(y, VALID, 1);
    y' := y.Unpin();
    assert [INITIAL_BLOCK, y][1 := y'] == [INITIAL_BLOCK, y'];
    assert map[0 := [read]] - {0} == map[] && map[read := 1] - {read} == map[];
    next := Step(cfg, sys, Next).value;
  }

  // a hit response is delayed, or ready, and its line pinned
  function Hit(mf: MemFetch, y: Block, queue: seq<Packet>): CacheState {
    CacheState(Tags([INITIAL_BLOCK, y], 1), map[], [], queue, [HitEntry(mf, 1)], [], map[], map[mf := 1], 0)
  }

  function Ready(mf: MemFetch, y: Block): CacheState {
    CacheState(Tags([INITIAL_BLOCK, y], 1), map[], [], [], [], [mf], map[], map[mf := 1], 0)
  }

  lemma HitProbe(cfg: Config, s: CacheState, y: Block, status: Status, pins: nat, mf: MemFetch)
    requires TwoWays(cfg) && FirstBlock(cfg, mf) && s.tags.lines == [INITIAL_BLOCK, y] && Is(y, status, pins)
    requires status in {VALID, MODIFIED}
    ensures Sized(cfg, s.tags) && ProbeFor(cfg, s, mf) == ProbeResult(HIT, 1)
  {
    hide ProbeTags, Is, FirstBlock;
    StartIsIdle(cfg);
    FirstAddresses(cfg, mf);
    InitialIs();
    IsTells(INITIAL_BLOCK, INVALID, 0);
    IsTells(y, status, pins);
    TwoProbe(cfg, s.tags, 0, mf.isWrite);
    IsHit(y, status, pins);
  }

  lemma IsHit(b: Block, status: Status, pins: nat)
    requires Is(b, status, pins) && status in {VALID, MODIFIED}
    ensures forall isWrite :: HitStatus(b.sectors[0], isWrite) == HIT
  {
  }

  lemma WrittenIs(cfg: Config, y: Block, mf: MemFetch, time: nat)
    requires cfg.cacheType == NORMAL && Is(y, VALID, 0)
    ensures var w := y.Touch(time).SetStatus(MODIFIED, 0).SetByteMask(mf.bytes);
      Is(w, MODIFIED, 0) && Is(UpdateReadable(cfg, w, mf), MODIFIED, 0) && !y.Touch(time).IsModifiedLine()
  {
  }

  lemma LocalStep(cfg: Config, sys: CacheSystem, y: Block, mf: MemFetch) returns (next: CacheSystem, y': Block)
    requires TwoWays(cfg) && FirstBlock(cfg, mf) && mf.isWrite && !mf.isGlobal
    requires sys.s == Idle(INITIAL_BLOCK, y, 0) && Is(y, VALID, 0)
    ensures Legal(cfg, sys, Access(mf, 2)) && Step(cfg, sys, Access(mf, 2)) == Some(next)
    ensures next.s == Hit(mf, y', []) && Is(y', MODIFIED, 1)
  {
    hide ProbeFor, CacheAccess, Is, UpdateReadable, Block.Touch, Block.SetStatus, Block.SetByteMask, Block.Pin,
      Block.IsModifiedLine, HitLatency;
    HitProbe(cfg, sys.s, y, VALID, 0, mf);
    FirstAddresses(cfg, mf);
    TakesOneCycle(cfg, mf);
    LocalHitWrites(cfg, sys.s, mf, 2, 1);
    WrittenIs(cfg, y, mf, 2);
    var w := UpdateReadable(cfg, y.Touch(2).SetStatus(MODIFIED, 0).SetByteMask(mf.bytes), mf);
    Changes(w, MODIFIED, 0, 0, {});
    y' := w.Pin();
    LocalState(cfg, sys.s, y, mf);
    next := Step(cfg, sys, Access(mf, 2)).value;
  }

  // the state a local hit leaves, written out
  lemma LocalState(cfg: Config, s: CacheState, y: Block, mf: MemFetch)
    requires cfg.Valid() && cfg.cacheType == NORMAL && s == Idle(INITIAL_BLOCK, y, 0) && HitLatency(cfg, mf) == 1
    requires cfg.SectorOf(mf) == 0 && !y.Touch(2).IsModifiedLine()
    ensures var touched := s.tags.(lines := s.tags.lines[1 := y.Touch(2)]);
      var written := WriteInto(cfg, touched, 1, mf);
      var w := UpdateReadable(cfg, y.Touch(2).SetStatus(MODIFIED, 0).SetByteMask(mf.bytes), mf);
      EnqueueHitResponse(cfg, s.(tags := OnLine(written, 1, UpdateReadable(cfg, written.lines[1], mf))), mf, 1)
      == Hit(mf, w.Pin(), [])
  {
    hide UpdateReadable, Block.Touch, Block.SetStatus, Block.SetByteMask, Block.Pin, Block.IsModifiedLine, HitLatency;
    var w := UpdateReadable(cfg, y.Touch(2).SetStatus(MODIFIED, 0).SetByteMask(mf.bytes), mf);
    assert [INITIAL_BLOCK, y][1 := y.Touch(2)][1 := y.Touch(2).SetStatus(MODIFIED, 0).SetByteMask(mf.bytes)]
             [1 := w][1 := w.Pin()]
           == [INITIAL_BLOCK, w.Pin()];
    assert [] + [HitEntry(mf, 1)] == [HitEntry(mf, 1)];
  }

  lemma TickStep(cfg: Config, sys: CacheSystem, y: Block, mf: MemFetch) returns (next: CacheSystem)
    requires TwoWays(cfg) && sys.s == Hit(mf, y, [])
    ensures Legal(cfg, sys, Cycle(false)) && Step(cfg, sys, Cycle(false)) == Some(next) && next.s == Ready(mf, y)
  {
    hide CacheCycle;
    StartIsIdle(cfg);
    LastTick(sys.s, mf);
    assert [] + [mf] == [mf];
    next := Step(cfg, sys, Cycle(false)).value;
  }

  lemma CollectHit(cfg: Config, sys: CacheSystem, y: Block, mf: MemFetch) returns (next: CacheSystem, y': Block)
    requires TwoWays(cfg) && sys.s == Ready(mf, y) && Is(y, MODIFIED, 1)
    ensures Legal(cfg, sys, Next) && Step(cfg, sys, Next) == Some(next)
    ensures next.s == Idle(INITIAL_BLOCK, y', 1) && Is(y', MODIFIED, 0)
  {
    hide Is, Block.Unpin;
    StartIsIdle(cfg);
    Changes(y, MODIFIED, 1, 0, {});
    IsTells(y, MODIFIED, 1);
    y' := y.Unpin();
    assert [INITIAL_BLOCK, y][1 := y'] == [INITIAL_BLOCK, y'];
    assert [mf][1..] == [] && map[mf := 1] - {mf} == map[];
    next := Step(cfg, sys, Next).value;
  }

  lemma GlobalStep(cfg: Config, sys: CacheSystem, y: Block, mf: MemFetch) returns (next: CacheSystem, y': Block)
    requires TwoWays(cfg) && FirstBlock(cfg, mf) && mf.isWrite && mf.isGlobal
    requires sys.s == Idle(INITIAL_BLOCK, y, 1) && Is(y, MODIFIED, 0)
    ensures Legal(cfg, sys, Access(mf, 3)) && Step(cfg, sys, Access(mf, 3)) == Some(next)
    ensures next.s == Hit(mf, y', [WritePacket(mf)]) && Is(y', INVALID, 1)
  {
    hide ProbeFor, CacheAccess, Is, Block.SetStatus, Block.Pin, HitLatency;
    HitProbe(cfg, sys.s, y, MODIFIED, 0, mf);
    FirstAddresses(cfg, mf);
    TakesOneCycle(cfg, mf);
    GlobalHitEvicts(cfg, sys.s, mf, 3, 1);
    Changes(y, MODIFIED, 0, 0, {});
    Changes(y.SetStatus(INVALID, 0), INVALID, 0, 0, {});
    y' := y.SetStatus(INVALID, 0).Pin();
    assert [INITIAL_BLOCK, y][1 := y.SetStatus(INVALID, 0)][1 := y'] == [INITIAL_BLOCK, y'];
    assert [] + [WritePacket(mf)] == [WritePacket(mf)] && [] + [HitEntry(mf, 1)] == [HitEntry(mf, 1)];
    next := Step(cfg, sys, Access(mf, 3)).value;
  }

  lemma NoneModified(y: Block)
    requires Is(y, INVALID, 1)
    ensures CountModified([INITIAL_BLOCK, y]) == 0
  {
    hide Is;
    IsTells(y, INVALID, 1);
    InitialIs();
    IsTells(INITIAL_BLOCK, INVALID, 0);
    assert [INITIAL_BLOCK, y][1..] == [y] && [y][1..] == [];
    assert CountModified([y]) == 0;
  }

  // nothing of the block is dirty any more, and no packet carries the byte
  lemma ByteIsGone(cfg: Config, sys: CacheSystem, read: MemFetch, y: Block, global: MemFetch, k: nat)
    requires cfg.Valid() && cfg.cacheType == NORMAL && Is(y, INVALID, 1) && k !in global.bytes
    requires sys.s.tags.lines == [INITIAL_BLOCK, y] && sys.queued == [ReadPacket(read, 0), WritePacket(global)]
    ensures !Safe(cfg, sys, 0, 0, k)
  {
    assert sys.queued[0..] == sys.queued;
  }

  /** A block is read, written locally and, once that response was collected, written
      globally.  Then no line is modified and the dirty counter still counts one; and each
      byte of the local write that the global one did not write is neither in a line nor
      in any packet. */
  lemma LocalWriteIsLost(cfg: Config, read: MemFetch, local: MemFetch, global: MemFetch) returns (end: CacheSystem)
    requires TwoWays(cfg) && FirstBlock(cfg, read) && FirstBlock(cfg, local) && FirstBlock(cfg, global)
    requires !read.isWrite && local.isWrite && !local.isGlobal && global.isWrite && global.isGlobal
    ensures var events := [Access(read, 1), Cycle(false), Fill(read)]
                          + [Next, Access(local, 2), Cycle(false), Next, Access(global, 3)];
      LegalRun(cfg, Start(cfg), events) && Run(cfg, Start(cfg), events) == Some(end)
    ensures end.s.tags.dirty == 1 && CountModified(end.s.tags.lines) == 0
    ensures forall k :: k in local.bytes && k !in global.bytes ==> !Safe(cfg, end, 0, 0, k)
  {
    hide Start, Step, Legal, Is, FirstBlock, CountModified, Safe;
    var s3, y3 := FetchRun(cfg, read);
    var s4, y4 := CollectRead(cfg, s3, read, y3);
    var s5, y5 := LocalStep(cfg, s4, y4, local);
    var s6 := TickStep(cfg, s5, y5, local);
    var s7, y7 := CollectHit(cfg, s6, y5, local);
    var y8;
    end, y8 := GlobalStep(cfg, s7, y7, global);
    NoneModified(y8);
    var (e4, e5, e6, e7, e8) := (Next, Access(local, 2), Cycle(false), Next, Access(global, 3));
    LedgerIs(cfg, s3, e4);
    LedgerIs(cfg, s4, e5);
    LedgerIs(cfg, s5, e6);
    LedgerIs(cfg, s6, e7);
    LedgerIs(cfg, s7, e8);
    forall k | k in local.bytes && k !in global.bytes
      ensures !Safe(cfg, end, 0, 0, k)
    {
      ByteIsGone(cfg, end, read, y8, global, k);
    }
    RunFirst(cfg, s7, e8, end, []);
    RunFirst(cfg, s6, e7, s7, [e8] + []);
    RunFirst(cfg, s5, e6, s6, [e7] + ([e8] + []));
    RunFirst(cfg, s4, e5, s5, [e6] + ([e7] + ([e8] + [])));
    RunFirst(cfg, s3, e4, s4, [e5] + ([e6] + ([e7] + ([e8] + []))));
    assert [e4] + ([e5] + ([e6] + ([e7] + ([e8] + [])))) == [e4, e5, e6, e7, e8];
  }

  // ---- a global write before the read was collected ----

  // the global write hit the fetched line, which the read still pins
  function Evicted(read: MemFetch, global: MemFetch, y: Block): CacheState {
    CacheState(Tags([INITIAL_BLOCK, y], 0), map[0 := [read]], [0], [WritePacket(global)], [HitEntry(global, 1)], [],
               map[], map[read := 1, global := 1], 0)
  }

  lemma EarlyGlobalStep(cfg: Config, sys: CacheSystem, y: Block, read: MemFetch, global: MemFetch)
    returns (next: CacheSystem, y': Block)
    requires TwoWays(cfg) && FirstBlock(cfg, global) && global.isWrite && global.isGlobal && !read.isWrite
    requires sys.s == Fetched(read, y) && Is(y, VALID, 1)
    ensures Legal(cfg, sys, Access(global, 2)) && Step(cfg, sys, Access(global, 2)) == Some(next)
    ensures next.atMemory == sys.atMemory
    ensures next.s == Evicted(read, global, y') && Is(y', INVALID, 2)
  {
    hide ProbeFor, CacheAccess, Is, Block.SetStatus, Block.Pin, HitLatency;
    HitProbe(cfg, sys.s, y, VALID, 1, global);
    FirstAddresses(cfg, global);
    TakesOneCycle(cfg, global);
    GlobalHitEvicts(cfg, sys.s, global, 2, 1);
    Changes(y, VALID, 1, 0, {});
    Changes(y.SetStatus(INVALID, 0), INVALID, 1, 0, {});
    y' := y.SetStatus(INVALID, 0).Pin();
    assert [INITIAL_BLOCK, y][1 := y.SetStatus(INVALID, 0)][1 := y'] == [INITIAL_BLOCK, y'];
    assert [] + [WritePacket(global)] == [WritePacket(global)] && [] + [HitEntry(global, 1)] == [HitEntry(global, 1)];
    assert map[read := 1][global := 1] == map[read := 1, global := 1];
    next := Step(cfg, sys, Access(global, 2)).value;
  }

  // another read joined the ready entry, and its line waits for a fetch nobody sent
  function Joined(read: MemFetch, again: MemFetch, global: MemFetch, x: Block, y: Block): CacheState {
    CacheState(Tags([x, y], 0), map[0 := [read, again]], [0], [WritePacket(global)], [HitEntry(global, 1)], [], map[],
               map[read := 1, global := 1, again := 0], 0)
  }

  lemma AgainAllocates(cfg: Config, s: CacheState, y: Block, again: MemFetch) returns (x: Block)
    requires TwoWays(cfg) && FirstBlock(cfg, again) && !again.isWrite
    requires s.tags == Tags([INITIAL_BLOCK, y], 0) && Is(y, INVALID, 2)
    ensures Sized(cfg, s.tags) && ProbeFor(cfg, s, again) == ProbeResult(MISS, 0) && Is(x, RESERVED, 0)
    ensures TagAccess(cfg, s.tags, 0, again, 3) == Some(AccessResult(Tags([x, y], 0), MISS, 0, None))
  {
    hide ProbeTags, FirstBlock, Is, Block.Allocate;
    StartIsIdle(cfg);
    FirstAddresses(cfg, again);
    InitialIs();
    IsTells(INITIAL_BLOCK, INVALID, 0);
    IsTells(y, INVALID, 2);
    Changes(INITIAL_BLOCK, INVALID, 0, 3, {});
    FirstWayProbe(cfg, s.tags, 0, false);
    x := INITIAL_BLOCK.Allocate(NORMAL, 0, 0, 3, 0);
    assert [INITIAL_BLOCK, y][0 := x] == [x, y];
  }

  // the state a merged read leaves, written out
  lemma JoinedState(cfg: Config, read: MemFetch, again: MemFetch, global: MemFetch, x: Block, y: Block)
    requires cfg.lineSize > 0 && cfg.MshrAddr(again.addr) == 0
    ensures var s := Evicted(read, global, y);
      s.(tags := Pin(Tags([x, y], 0), 0), mshr := MshrAdd(s.mshr, cfg.MshrAddr(again.addr), again),
         pending := s.pending[again := 0]) == Joined(read, again, global, x.Pin(), y)
  {
    hide Block.Pin, Config.MshrAddr;
    assert [x, y][0 := x.Pin()] == [x.Pin(), y] && [read] + [again] == [read, again];
    assert map[0 := [read]][0 := [read, again]] == map[0 := [read, again]];
    assert map[read := 1, global := 1][again := 0] == map[read := 1, global := 1, again := 0];
  }

  lemma AgainMerges(cfg: Config, s: CacheState, y: Block, read: MemFetch, again: MemFetch, global: MemFetch)
    returns (x: Block)
    requires TwoWays(cfg) && cfg.missQueueSize > 2 && FirstBlock(cfg, again) && !again.isWrite
    requires s == Evicted(read, global, y) && Is(y, INVALID, 2)
    ensures Sized(cfg, s.tags) && Is(x, RESERVED, 1)
    ensures CacheAccess(cfg, s, again, 3) == Some(Outcome(Joined(read, again, global, x, y), MISS))
  {
    hide ProbeFor, TagAccess, CacheAccess, Is, Block.Pin, MshrAdd, CacheModel.Pin, Config.MshrAddr, Config.BlockAddr,
         Joined;
    FirstAddresses(cfg, again);
    var x0 := AgainAllocates(cfg, s, y, again);
    ReadMissMerges(cfg, s, again, 3, Tags([x0, y], 0), 0);
    Changes(x0, RESERVED, 0, 0, {});
    x := x0.Pin();
    JoinedState(cfg, read, again, global, x0, y);
  }

  lemma AgainStep(cfg: Config, sys: CacheSystem, y: Block, read: MemFetch, again: MemFetch, global: MemFetch)
    returns (next: CacheSystem, x: Block)
    requires TwoWays(cfg) && cfg.missQueueSize > 2 && FirstBlock(cfg, again) && !again.isWrite && global.isWrite
    requires again != read && sys.s == Evicted(read, global, y) && Is(y, INVALID, 2)
    ensures Legal(cfg, sys, Access(again, 3)) && Step(cfg, sys, Access(again, 3)) == Some(next)
    ensures Sized(cfg, sys.s.tags)
    ensures CacheAccess(cfg, sys.s, again, 3).Some? && CacheAccess(cfg, sys.s, again, 3).value.status == MISS
    ensures next.atMemory == sys.atMemory
    ensures next.s == Joined(read, again, global, x, y) && Is(x, RESERVED, 1)
  {
    hide CacheAccess, Is, Joined, FirstBlock;
    FirstAddresses(cfg, again);
    x := AgainMerges(cfg, sys.s, y, read, again, global);
    AgainIsNew(cfg, sys.s, read, again, global, y);
    next := Step(cfg, sys, Access(again, 3)).value;
  }

  lemma AgainIsNew(cfg: Config, s: CacheState, read: MemFetch, again: MemFetch, global: MemFetch, y: Block)
    requires TwoWays(cfg) && FirstBlock(cfg, again) && !again.isWrite && global.isWrite && again != read
    requires s == Evicted(read, global, y)
    ensures Presentable(cfg, s, again, 3)
  {
  }

  // after the cycle that sends the write
  function Ticked(read: MemFetch, again: MemFetch, global: MemFetch, x: Block, y: Block): CacheState {
    Joined(read, again, global, x, y).(missQueue := [], hitQueue := [], readyQueue := [global])
  }

  lemma LastTickStep(cfg: Config, sys: CacheSystem, x: Block, y: Block, read: MemFetch, again: MemFetch,
                     global: MemFetch)
    returns (next: CacheSystem)
    requires TwoWays(cfg) && sys.s == Joined(read, again, global, x, y)
    ensures Legal(cfg, sys, Cycle(false)) && Step(cfg, sys, Cycle(false)) == Some(next)
    ensures next.atMemory == sys.atMemory
    ensures next.s == Ticked(read, again, global, x, y)
  {
    hide CacheCycle;
    StartIsIdle(cfg);
    LastTick(sys.s, global);
    assert [] + [global] == [global] && [WritePacket(global)][1..] == [];
    next := Step(cfg, sys, Cycle(false)).value;
  }

  // a response leaves from the line in the given way
  lemma CollectGlobal(cfg: Config, sys: CacheSystem, x: Block, y: Block, read: MemFetch, again: MemFetch,
                      global: MemFetch)
    returns (next: CacheSystem, y': Block)
    requires TwoWays(cfg) && sys.s == Ticked(read, again, global, x, y) && Is(y, INVALID, 2)
    requires global != read && global != again && read != again
    ensures Legal(cfg, sys, Next) && Step(cfg, sys, Next) == Some(next) && Is(y', INVALID, 1)
    ensures next.atMemory == sys.atMemory
    ensures next.s == CacheState(Tags([x, y'], 0), map[0 := [read, again]], [0], [], [], [], map[],
                                 map[read := 1, again := 0], 0)
  {
    hide Is, Block.Unpin;
    StartIsIdle(cfg);
    Changes(y, INVALID, 2, 0, {});
    IsTells(y, INVALID, 2);
    y' := y.Unpin();
    assert [x, y][1 := y'] == [x, y'] && [global][1..] == [];
    assert map[read := 1, global := 1, again := 0] - {global} == map[read := 1, again := 0];
    next := Step(cfg, sys, Next).value;
  }

  lemma CollectFirst(cfg: Config, sys: CacheSystem, x: Block, y: Block, read: MemFetch, again: MemFetch)
    returns (next: CacheSystem, y': Block)
    requires TwoWays(cfg) && Is(y, INVALID, 1) && read != again
    requires sys.s == CacheState(Tags([x, y], 0), map[0 := [read, again]], [0], [], [], [], map[],
                                 map[read := 1, again := 0], 0)
    ensures Legal(cfg, sys, Next) && Step(cfg, sys, Next) == Some(next)
    ensures next.atMemory == sys.atMemory
    ensures next.s == CacheState(Tags([x, y'], 0), map[0 := [again]], [0], [], [], [], map[], map[again := 0], 0)
    ensures Is(y', INVALID, 0)
  {
    hide Is, Block.Unpin;
    StartIsIdle(cfg);
    IsTells(y, INVALID, 1);
    Changes(y, INVALID, 1, 0, {});
    y' := y.Unpin();
    assert [x, y][1 := y'] == [x, y'] && [read, again][1..] == [again];
    assert map[read := 1, again := 0] - {read} == map[again := 0];
    assert map[0 := [read, again]][0 := [again]] == map[0 := [again]];
    next := Step(cfg, sys, Next).value;
  }

  lemma CollectLast(cfg: Config, sys: CacheSystem, x: Block, y: Block, again: MemFetch)
    returns (next: CacheSystem, x': Block)
    requires TwoWays(cfg) && Is(x, RESERVED, 1)
    requires sys.s == CacheState(Tags([x, y], 0), map[0 := [again]], [0], [], [], [], map[], map[again := 0], 0)
    ensures Legal(cfg, sys, Next) && Step(cfg, sys, Next) == Some(next)
    ensures next.atMemory == sys.atMemory
    ensures next.s == Idle(x', y, 0) && Is(x', RESERVED, 0)
  {
    hide Is, Block.Unpin;
    StartIsIdle(cfg);
    Changes(x, RESERVED, 1, 0, {});
    IsTells(x, RESERVED, 1);
    x' := x.Unpin();
    assert [x, y][0 := x'] == [x', y];
    assert map[0 := [again]] - {0} == map[] && map[again := 0] - {again} == map[];
    next := Step(cfg, sys, Next).value;
  }

  // a read that was merged is owed its response
  lemma AgainIsOwed(cfg: Config, sys: CacheSystem, next: CacheSystem, again: MemFetch)
    requires Step(cfg, sys, Access(again, 3)) == Some(next) && !again.isWrite
    requires CacheAccess(cfg, sys.s, again, 3).Some?
    requires CacheAccess(cfg, sys.s, again, 3).value.status == MISS
    ensures again in next.owed
  {
    hide CacheAccess, Step;
    LedgerIs(cfg, sys, Access(again, 3));
  }

  /** A block is fetched for a read, written globally before that read is collected, and
      read again: the second read joins the entry already marked ready and is answered
      although no fetch was queued for it and the block is in no line; with every queue
      empty the way it was given stays RESERVED. */
  lemma AnsweredWithoutFetch(cfg: Config, read: MemFetch, global: MemFetch, again: MemFetch)
    returns (end: CacheSystem, x: Block, y: Block)
    requires TwoWays(cfg) && cfg.missQueueSize > 2
    requires FirstBlock(cfg, read) && FirstBlock(cfg, global) && FirstBlock(cfg, again)
    requires !read.isWrite && !again.isWrite && global.isWrite && global.isGlobal && read != again
    ensures var events := [Access(read, 1), Cycle(false), Fill(read)]
                          + [Access(global, 2), Access(again, 3), Cycle(false), Next, Next, Next];
      LegalRun(cfg, Start(cfg), events) && Run(cfg, Start(cfg), events) == Some(end)
    ensures end.queued == [ReadPacket(read, 0), WritePacket(global)] && again in end.delivered
    ensures QueuesEmpty(end.s) && end.atMemory == {} && SystemInv(cfg, end)
    ensures end.s == Idle(x, y, 0) && Is(x, RESERVED, 0) && Is(y, INVALID, 0) && x.IsReservedLine()
  {
    hide Start, Step, Legal, Is, FirstBlock, SystemInv, CacheAccess, CacheInv, Block.IsReservedLine;
    var s3, y3 := FetchRun(cfg, read);
    var s4, y4 := EarlyGlobalStep(cfg, s3, y3, read, global);
    var s5, x5 := AgainStep(cfg, s4, y4, read, again, global);
    var s6 := LastTickStep(cfg, s5, x5, y4, read, again, global);
    var s7, y7 := CollectGlobal(cfg, s6, x5, y4, read, again, global);
    var s8, y8 := CollectFirst(cfg, s7, x5, y7, read, again);
    var x9;
    end, x9 := CollectLast(cfg, s8, x5, y8, again);
    x, y := x9, y8;
    IsTells(x9, RESERVED, 0);
    var (e4, e5, e6) := (Access(global, 2), Access(again, 3), Cycle(false));
    LedgerIs(cfg, s3, e4);
    LedgerIs(cfg, s4, e5);
    AgainIsOwed(cfg, s4, s5, again);
    LedgerIs(cfg, s5, e6);
    LedgerIs(cfg, s6, Next);
    LedgerIs(cfg, s7, Next);
    LedgerIs(cfg, s8, Next);
    RunFirst(cfg, s8, Next, end, []);
    RunFirst(cfg, s7, Next, s8, [Next] + []);
    RunFirst(cfg, s6, Next, s7, [Next] + ([Next] + []));
    RunFirst(cfg, s5, e6, s6, [Next] + ([Next] + ([Next] + [])));
    RunFirst(cfg, s4, e5, s5, [e6] + ([Next] + ([Next] + ([Next] + []))));
    RunFirst(cfg, s3, e4, s4, [e5] + ([e6] + ([Next] + ([Next] + ([Next] + [])))));
    assert [e4] + ([e5] + ([e6] + ([Next] + ([Next] + ([Next] + []))))) == [e4, e5, e6, Next, Next, Next];
    StartInv(cfg);
    RunKeepsInv(cfg, Start(cfg), [Access(read, 1), Cycle(false), Fill(read)] + [e4, e5, e6, Next, Next, Next]);
    EmptyIsIdle(cfg, end);
    assert again in multiset(end.owed) && multiset(end.delivered) == multiset(end.owed);
  }

  // ---- the next read of the block ----

  lemma ReservedProbe(cfg: Config, x: Block, y: Block, more: MemFetch)
    requires TwoWays(cfg) && FirstBlock(cfg, more) && !more.isWrite && Is(x, RESERVED, 0) && Is(y, INVALID, 0)
    ensures var s := Idle(x, y, 0); Sized(cfg, s.tags) && ProbeFor(cfg, s, more) == ProbeResult(HIT_RESERVED, 0)
  {
    hide Is, FirstBlock;
    StartIsIdle(cfg);
    FirstAddresses(cfg, more);
    IsTells(x, RESERVED, 0);
    ReservedStatus(x);
    assert cfg.SetBase(0) == 0;
  }

  lemma ReservedStatus(x: Block)
    requires Is(x, RESERVED, 0)
    ensures HitStatus(x.sectors[0], false) == HIT_RESERVED
  {
  }

  lemma ReservedReadIsAccepted(cfg: Config, s: CacheState, more: MemFetch, time: nat)
    requires TwoWays(cfg) && cfg.missQueueSize > 2 && Sized(cfg, s.tags) && !more.isWrite
    requires s.missQueue == [] && s.mshr == map[] && ProbeFor(cfg, s, more).status == HIT_RESERVED
    requires CacheAccess(cfg, s, more, time).Some?
    ensures CacheAccess(cfg, s, more, time).value.status == MISS
  {
    hide ProbeFor, TagAccess, MshrAdd, Pin;
  }

  lemma MoreIsPresentable(cfg: Config, x: Block, y: Block, more: MemFetch)
    requires TwoWays(cfg) && FirstBlock(cfg, more) && !more.isWrite
    requires Sized(cfg, Idle(x, y, 0).tags) && ProbeFor(cfg, Idle(x, y, 0), more) == ProbeResult(HIT_RESERVED, 0)
    ensures Presentable(cfg, Idle(x, y, 0), more, 4) && !Fails(cfg, Idle(x, y, 0), more)
  {
    hide ProbeFor;
  }

  lemma ReservedReadPackets(cfg: Config, x: Block, y: Block, more: MemFetch)
    requires cfg.lineSize > 0 && !more.isWrite && cfg.MshrAddr(more.addr) == 0
    ensures var (s, p) := (Idle(x, y, 0), ProbeResult(HIT_RESERVED, 0));
      && AccessPackets(cfg, s, more, p) == [ReadPacket(more, 0)]
      && Recorded(cfg, s, more, p) == map[more := Extra(0, 0)]
      && AccessedLine(cfg, x, more, HIT_RESERVED, 4) == x.Touch(4).Pin()
  {
    hide Config.MshrAddr, Config.BlockAddr;
    assert [] + [ReadPacket(more, 0)] + [] == [ReadPacket(more, 0)];
  }

  lemma MoreStep(cfg: Config, sys: CacheSystem, x: Block, y: Block, more: MemFetch) returns (next: CacheSystem)
    requires TwoWays(cfg) && cfg.missQueueSize > 2 && FirstBlock(cfg, more) && !more.isWrite && SystemInv(cfg, sys)
    requires sys.s == Idle(x, y, 0) && Is(x, RESERVED, 0) && Is(y, INVALID, 0)
    ensures Legal(cfg, sys, Access(more, 4)) && Step(cfg, sys, Access(more, 4)) == Some(next) && SystemInv(cfg, next)
    ensures next.s.missQueue == [ReadPacket(more, 0)] && next.s.extra == map[more := Extra(0, 0)]
    ensures next.s.tags.lines == [x.Touch(4).Pin(), y]
    ensures next.queued == sys.queued + [ReadPacket(more, 0)] && next.atMemory == sys.atMemory
  {
    hide SystemInv, CacheAccess, ProbeFor, FirstBlock, Is, AccessedLine, AccessPackets, Recorded, Block.Touch,
         Block.Pin, Presentable, Fails;
    FirstAddresses(cfg, more);
    ReservedProbe(cfg, x, y, more);
    MoreIsPresentable(cfg, x, y, more);
    StepKeepsInv(cfg, sys, Access(more, 4));
    next := Step(cfg, sys, Access(more, 4)).value;
    ReservedReadIsAccepted(cfg, sys.s, more, 4);
    AccessEffect(cfg, sys.s, more, 4);
    ReservedReadPackets(cfg, x, y, more);
    assert [] + [ReadPacket(more, 0)] == [ReadPacket(more, 0)];
    assert [x, y][0 := x.Touch(4).Pin()] == [x.Touch(4).Pin(), y];
  }

  lemma SendMoreStep(cfg: Config, sys: CacheSystem, more: MemFetch) returns (next: CacheSystem)
    requires cfg.lineSize > 0 && SystemInv(cfg, sys) && sys.s.missQueue == [ReadPacket(more, 0)]
    ensures Legal(cfg, sys, Cycle(false)) && Step(cfg, sys, Cycle(false)) == Some(next) && SystemInv(cfg, next)
    ensures next.s.tags == sys.s.tags && next.s.extra == sys.s.extra && more in next.atMemory
  {
    hide CoreInv, Sized, EntriesInOrder, StillWaiting, Expired;
    CycleStep(cfg, sys, false);
    next := Step(cfg, sys, Cycle(false)).value;
  }

  lemma FillMoreStep(cfg: Config, sys: CacheSystem, x: Block, y: Block, more: MemFetch) returns (next: CacheSystem)
    requires TwoWays(cfg) && FirstBlock(cfg, more) && SystemInv(cfg, sys) && more in sys.atMemory
    requires Is(x, RESERVED, 0) && sys.s.tags.lines == [x.Touch(4).Pin(), y] && sys.s.extra == map[more := Extra(0, 0)]
    ensures Legal(cfg, sys, Fill(more)) && Step(cfg, sys, Fill(more)) == Some(next)
    ensures |next.s.tags.lines| == 2 && Is(next.s.tags.lines[0], VALID, 1)
  {
    hide CoreInv, Sized, EntriesInOrder, Is, FirstBlock, Block.Touch, Block.Pin, Block.Fill;
    FirstAddresses(cfg, more);
    CacheRuns.FillStep(cfg, sys, more);
    next := Step(cfg, sys, Fill(more)).value;
    Changes(x, RESERVED, 0, 4, {});
    Changes(x.Touch(4), RESERVED, 0, 4, {});
    Changes(x.Touch(4).Pin(), RESERVED, 1, 4, more.bytes);
  }

  /** The way waits only until the block is read again: that read is accepted, queues a
      fetch of its own, and the fill makes the line valid. */
  lemma NextReadFetches(cfg: Config, sys: CacheSystem, x: Block, y: Block, more: MemFetch) returns (end: CacheSystem)
    requires TwoWays(cfg) && cfg.missQueueSize > 2 && FirstBlock(cfg, more) && !more.isWrite && SystemInv(cfg, sys)
    requires sys.s == Idle(x, y, 0) && Is(x, RESERVED, 0) && Is(y, INVALID, 0)
    ensures var events := [Access(more, 4), Cycle(false), Fill(more)];
      LegalRun(cfg, sys, events) && Run(cfg, sys, events) == Some(end)
    ensures ReadPacket(more, 0) in end.queued
    ensures |end.s.tags.lines| == 2 && Is(end.s.tags.lines[0], VALID, 1)
  {
    hide Step, Legal, Is, FirstBlock, SystemInv;
    var s1 := MoreStep(cfg, sys, x, y, more);
    var s2 := SendMoreStep(cfg, s1, more);
    end := FillMoreStep(cfg, s2, x, y, more);
    var (e1, e2, e3) := (Access(more, 4), Cycle(false), Fill(more));
    LedgerIs(cfg, s1, e2);
    LedgerIs(cfg, s2, e3);
    RunFirst(cfg, s2, e3, end, []);
    RunFirst(cfg, s1, e2, s2, [e3] + []);
    RunFirst(cfg, sys, e1, s1, [e2] + ([e3] + []));
    assert [e1] + ([e2] + ([e3] + [])) == [e1, e2, e3];
  }

  /** There are such caches and requests. */
  lemma SuchRequestsExist() returns (cfg: Config, read: MemFetch, local: MemFetch, global: MemFetch, again: MemFetch)
    ensures TwoWays(cfg) && cfg.missQueueSize > 2
    ensures FirstBlock(cfg, read) && FirstBlock(cfg, local) && FirstBlock(cfg, global) && FirstBlock(cfg, again)
    ensures !read.isWrite && !again.isWrite && read != again
    ensures local.isWrite && !local.isGlobal && global.isWrite && global.isGlobal
    ensures 1 in local.bytes && 1 !in global.bytes
  {
    cfg := Config(NORMAL, 128, 1, 2, LRU, LOCAL_WB_GLOBAL_WT, NO_WRITE_ALLOCATE, 100, 4, 4, 4, 4, 32, _ => 0);
    read := MemFetch(Client(0), 0, 4, false, false, 0, {0});
    local := MemFetch(Client(1), 0, 4, true, false, 0, {0, 1});
    global := MemFetch(Client(2), 0, 4, true, true, 0, {0});
    again := MemFetch(Client(3), 0, 4, false, false, 0, {0});
  }
}
