/** When a request is accepted: exactly when the queues, the MSHRs and its set have the
    room that its policy asks for. */
module CacheAcceptance {
  import opened CacheTypes
  import opened Options
  import opened TagArrays
  import opened CacheModel
  import opened CacheAdmission
  import opened CacheInvariant
  import opened CacheSteps
  import opened CacheOperations
  import opened CacheCore
  import opened CacheRuns
  import opened CacheGuarantees

  // ---- the room a request needs ----

  // way j belongs to the set that the block is hashed to
  predicate WayOf(cfg: Config, block: nat, j: nat) {
    cfg.setIndex(block) * cfg.assoc <= j < cfg.setIndex(block) * cfg.assoc + cfg.assoc
  }

  // some sector of the line is in use, and the line bears the tag
  predicate BearsTag(b: Block, tag: nat) {
    b.tag == tag && exists sec: nat | sec < SECTOR_CHUNK_SIZE :: b.sectors[sec].status != INVALID
  }

  // nobody waits for the line, and it is clean, or so many lines are modified that it may go
  predicate Free(cfg: Config, s: CacheState, b: Block) {
    && b.pins == 0
    && forall sec: nat | sec < SECTOR_CHUNK_SIZE :: b.sectors[sec].status != RESERVED
         && (b.sectors[sec].status == MODIFIED ==> s.tags.dirty * 100 >= cfg.wrPercent * (cfg.nset * cfg.assoc))
  }

  // a way of its set holds the block, or may be given to it
  predicate WayFor(cfg: Config, s: CacheState, mf: MemFetch)
    requires cfg.lineSize > 0
  {
    var block := cfg.BlockAddr(mf.addr);
    exists j: nat | j < |s.tags.lines| ::
      WayOf(cfg, block, j) && (BearsTag(s.tags.lines[j], block) || Free(cfg, s, s.tags.lines[j]))
  }

  // free places in the miss queue
  predicate Slots(cfg: Config, s: CacheState, n: nat) { |s.missQueue| + n <= cfg.missQueueSize }

  // a fetch can join the entry of its address, or open one
  predicate EntryRoom(cfg: Config, s: CacheState, mf: MemFetch)
    requires cfg.lineSize > 0
  {
    var a := cfg.MshrAddr(mf.addr);
    if a in s.mshr then |s.mshr[a]| < cfg.mshrMaxMerge else |s.mshr| < cfg.mshrEntries
  }

  predicate HitRoom(cfg: Config, s: CacheState, mf: MemFetch) {
    && |s.hitQueue| < cfg.hitQueueSize
    && (mf.isWrite ==>
          match cfg.writePolicy
          case WRITE_THROUGH => Slots(cfg, s, 1)
          case WRITE_EVICT => Slots(cfg, s, 1)
          case LOCAL_WB_GLOBAL_WT => mf.isGlobal ==> Slots(cfg, s, 1)
          case _ => true)
  }

  ghost predicate ReadRoom(cfg: Config, s: CacheState, mf: MemFetch)
    requires cfg.lineSize > 0
  {
    WayFor(cfg, s, mf) && EntryRoom(cfg, s, mf) && Slots(cfg, s, if cfg.writePolicy == READ_ONLY then 1 else 2)
  }

  ghost predicate WriteRoom(cfg: Config, s: CacheState, mf: MemFetch)
    requires cfg.lineSize > 0
  {
    match cfg.writeAllocate
    case NO_WRITE_ALLOCATE => Slots(cfg, s, 1)
    case WRITE_ALLOCATE => WayFor(cfg, s, mf) && Slots(cfg, s, 3) && EntryRoom(cfg, s, mf)
    case LAZY_FETCH_ON_READ => WayFor(cfg, s, mf) && Slots(cfg, s, 1)
    case FETCH_ON_WRITE =>
      if |mf.bytes| == cfg.AtomSize() then WayFor(cfg, s, mf) && Slots(cfg, s, 1)
      else WayFor(cfg, s, mf) && Slots(cfg, s, 2) && EntryRoom(cfg, s, mf)
  }

  ghost predicate Room(cfg: Config, s: CacheState, mf: MemFetch)
    requires Sized(cfg, s.tags)
  {
    if ProbeFor(cfg, s, mf).status == HIT then HitRoom(cfg, s, mf)
    else if mf.isWrite then WriteRoom(cfg, s, mf)
    else ReadRoom(cfg, s, mf)
  }

  // ---- the search, the MSHRs ----

  lemma WayIsFound(cfg: Config, s: CacheState, mf: MemFetch)
    requires Sized(cfg, s.tags) && AllShaped(cfg, s.tags.lines)
    ensures ProbeFor(cfg, s, mf).status != RESERVATION_FAIL <==> WayFor(cfg, s, mf)
  {
    BlockAddrTwice(cfg, mf.addr);
    hide ProbeTags, Eligible, Holds, BearsTag, Free, Config.BlockAddr;
    TimesOfShape(cfg, s.tags.lines);
    forall j: nat | j < |s.tags.lines|
      ensures BearsTag(s.tags.lines[j], cfg.BlockAddr(mf.addr)) <==> Holds(s.tags.lines[j], cfg.BlockAddr(mf.addr))
      ensures Free(cfg, s, s.tags.lines[j]) <==> Eligible(cfg, s.tags.dirty, s.tags.lines[j])
    {
      LineIsUsable(cfg, s, s.tags.lines[j], cfg.BlockAddr(mf.addr));
    }
    ProbeFailsIffNoWay(cfg, s.tags, cfg.BlockAddr(mf.addr), cfg.SectorOf(mf), mf.isWrite);
  }

  lemma LineIsUsable(cfg: Config, s: CacheState, b: Block, block: nat)
    ensures BearsTag(b, block) <==> Holds(b, block)
    ensures Free(cfg, s, b) <==> Eligible(cfg, s.tags.dirty, b)
  {
    assert forall sec: nat | sec < SECTOR_CHUNK_SIZE :: b.sectors[sec].status == RESERVED ==> b.IsReservedLine();
    assert forall sec: nat | sec < SECTOR_CHUNK_SIZE :: b.sectors[sec].status == MODIFIED ==> b.IsModifiedLine();
    assert forall sec: nat | sec < SECTOR_CHUNK_SIZE :: b.sectors[sec].status != INVALID ==> !b.IsInvalidLine();
  }

  lemma TimesOfShape(cfg: Config, lines: seq<Block>)
    requires AllShaped(cfg, lines)
    ensures TimesBelowSentinel(lines)
  {
    forall i | 0 <= i < |lines|
      ensures lines[i].lastAccess < TIME_SENTINEL && lines[i].allocTime < TIME_SENTINEL
    {
      assert Shaped(cfg, lines[i]);
    }
  }

  // entries list fetches only, so no read waits behind a write
  lemma NoReadAfterWrite(cfg: Config, s: CacheState, a: nat)
    requires CoreInv(cfg, s) && a in s.mshr
    ensures !ReadAfterWritePending(s.mshr[a])
  {
    hide Config.MshrAddr, AllShaped, PinsExact, PinsNamed, Accounted, WithinCapacity;
    forall i | 0 <= i < |s.mshr[a]|
      ensures !s.mshr[a][i].isWrite
    {
      assert IsMember(cfg, s.mshr[a][i], a, s.pending);
    }
  }

  // ---- the handlers ----

  ghost predicate Accepts(o: Option<Outcome>) { o.Some? && o.value.status != RESERVATION_FAIL }

  lemma WriteHitAccepts(cfg: Config, s: CacheState, mf: MemFetch, time: nat)
    requires CoreInv(cfg, s) && Presentable(cfg, s, mf, time) && mf.isWrite && cfg.writePolicy != READ_ONLY
    requires ProbeFor(cfg, s, mf).status == HIT
    ensures |s.hitQueue| < cfg.hitQueueSize ==>
      (Accepts(WrHit(cfg, s, mf, ProbeFor(cfg, s, mf).idx, time)) <==> HitRoom(cfg, s, mf))
  {
    hide CoreInv, WrHitWb, ProbeFor, Sized;
    CoreIsSized(cfg, s);
    WriteHitKeepsCore(cfg, s, mf, ProbeFor(cfg, s, mf).idx, time);
    WrHitWbHits(cfg, s, mf, ProbeFor(cfg, s, mf).idx, time);
  }

  lemma ReadMissAccepts(cfg: Config, s: CacheState, mf: MemFetch, time: nat)
    requires CoreInv(cfg, s) && Presentable(cfg, s, mf, time) && !mf.isWrite && !Unreadable(cfg, s, mf)
    requires ProbeFor(cfg, s, mf).status != HIT && ProbeFor(cfg, s, mf).status != RESERVATION_FAIL
    ensures Accepts(RdMiss(cfg, s, mf, ProbeFor(cfg, s, mf).idx, time)) <==>
      Slots(cfg, s, 2) && EntryRoom(cfg, s, mf)
  {
    hide SendRead, ProbeFor, Sized, CoreInv, SendWriteBack, Unreadable;
    CoreIsSized(cfg, s);
    var idx := ProbeFor(cfg, s, mf).idx;
    if !MissQueueFull(cfg, s, 1) {
      if MshrAccepts(cfg, s, cfg.MshrAddr(mf.addr)) {
        SendKeepsCore(cfg, s, mf, idx, time);
      } else {
        SendReadRefuses(cfg, s, mf, idx, time);
      }
    }
  }

  lemma WriteAllocateAccepts(cfg: Config, s: CacheState, mf: MemFetch, time: nat)
    requires CoreInv(cfg, s) && Presentable(cfg, s, mf, time) && mf.isWrite
    requires ProbeFor(cfg, s, mf).status != HIT && ProbeFor(cfg, s, mf).status != RESERVATION_FAIL
    ensures var p := ProbeFor(cfg, s, mf);
      Accepts(WrMissWriteAllocate(cfg, s, mf, p.idx, time, p.status)) <==> Slots(cfg, s, 3) && EntryRoom(cfg, s, mf)
  {
    hide SendRead, ProbeFor, Sized, CoreInv, SendWriteBack, ReadAdmitted, Unreadable, Named;
    CoreIsSized(cfg, s);
    var p := ProbeFor(cfg, s, mf);
    if !MissQueueFull(cfg, s, 2) && MshrAccepts(cfg, s, cfg.MshrAddr(mf.addr)) {
      var sent := s.(missQueue := s.missQueue + [WritePacket(mf)], nextId := s.nextId + 1);
      FetchIsAdmitted(cfg, s, sent, mf, p.idx, time);
      SendKeepsCore(cfg, sent, AllocateFetch(cfg, s, mf), p.idx, time);
    }
  }

  lemma FetchOnWriteAccepts(cfg: Config, s: CacheState, mf: MemFetch, time: nat)
    requires CoreInv(cfg, s) && Presentable(cfg, s, mf, time) && mf.isWrite && cfg.writePolicy != READ_ONLY
    requires ProbeFor(cfg, s, mf).status != HIT && ProbeFor(cfg, s, mf).status != RESERVATION_FAIL
    ensures Accepts(WrMissFetchOnWrite(cfg, s, mf, ProbeFor(cfg, s, mf).idx, time)) <==>
      if |mf.bytes| == cfg.AtomSize() then Slots(cfg, s, 1) else Slots(cfg, s, 2) && EntryRoom(cfg, s, mf)
  {
    hide TagAccess, SendRead, ProbeFor, Sized, CoreInv, SendWriteBack, ReadAdmitted, Unreadable, Named, WriteInto,
         ReadAfterWritePending;
    CoreIsSized(cfg, s);
    var idx := ProbeFor(cfg, s, mf).idx;
    FetchOnWriteKeepsCore(cfg, s, mf, idx, time);
    ReprobeAgrees(cfg, s, mf, idx, time);
    var a := cfg.MshrAddr(mf.addr);
    if a in s.mshr {
      NoReadAfterWrite(cfg, s, a);
    }
    if !MissQueueFull(cfg, s, 1) && MshrAccepts(cfg, s, a) {
      var sent := s.(nextId := s.nextId + 1);
      assert sent == s.(missQueue := sent.missQueue, nextId := s.nextId + 1);
      FetchIsAdmitted(cfg, s, sent, mf, idx, time);
      SendKeepsCore(cfg, sent, AllocateFetch(cfg, s, mf), idx, time);
    }
  }

  lemma LazyAccepts(cfg: Config, s: CacheState, mf: MemFetch, time: nat)
    requires CoreInv(cfg, s) && Presentable(cfg, s, mf, time) && mf.isWrite && cfg.writePolicy != READ_ONLY
    requires cfg.writeAllocate == LAZY_FETCH_ON_READ
    requires ProbeFor(cfg, s, mf).status != HIT && ProbeFor(cfg, s, mf).status != RESERVATION_FAIL
    ensures Accepts(WrMissLazy(cfg, s, mf, ProbeFor(cfg, s, mf).idx, time)) <==> Slots(cfg, s, 1)
  {
    hide TagAccess, ProbeFor, Sized, CoreInv, SendWriteBack, LazyWrite;
    CoreIsSized(cfg, s);
    var idx := ProbeFor(cfg, s, mf).idx;
    LazyKeepsCore(cfg, s, mf, idx, time);
    ReprobeAgrees(cfg, s, mf, idx, time);
  }

  lemma WriteMissAccepts(cfg: Config, s: CacheState, mf: MemFetch, time: nat)
    requires CoreInv(cfg, s) && Presentable(cfg, s, mf, time) && mf.isWrite && cfg.writePolicy != READ_ONLY
    requires ProbeFor(cfg, s, mf).status != HIT
    ensures var p := ProbeFor(cfg, s, mf);
      && (p.status != RESERVATION_FAIL || cfg.writeAllocate == NO_WRITE_ALLOCATE ==>
            (Accepts(WrMiss(cfg, s, mf, p.idx, time, p.status)) <==> WriteRoom(cfg, s, mf)))
      && (p.status == RESERVATION_FAIL && cfg.writeAllocate != NO_WRITE_ALLOCATE ==> !WriteRoom(cfg, s, mf))
  {
    hide CoreInv, WrMissWriteAllocate, WrMissLazy, WrMissFetchOnWrite, ProbeFor, Sized, WayFor, EntryRoom;
    CoreIsSized(cfg, s);
    WayIsFound(cfg, s, mf);
    if ProbeFor(cfg, s, mf).status != RESERVATION_FAIL {
      match cfg.writeAllocate {
        case NO_WRITE_ALLOCATE =>
        case WRITE_ALLOCATE => WriteAllocateAccepts(cfg, s, mf, time);
        case FETCH_ON_WRITE => FetchOnWriteAccepts(cfg, s, mf, time);
        case LAZY_FETCH_ON_READ => LazyAccepts(cfg, s, mf, time);
      }
    }
  }

  lemma DispatchAccepts(cfg: Config, s: CacheState, mf: MemFetch, time: nat)
    requires CoreInv(cfg, s) && Presentable(cfg, s, mf, time) && cfg.writePolicy != READ_ONLY
    requires ProbeFor(cfg, s, mf).status == HIT ==> |s.hitQueue| < cfg.hitQueueSize
    ensures Accepts(Dispatch(cfg, s, mf, time, ProbeFor(cfg, s, mf))) <==> Room(cfg, s, mf) && !Fails(cfg, s, mf)
  {
    hide CoreInv, WrHit, WrMiss, RdMiss, ProbeFor, Sized, TagAccess, Named, MshrAccepts, WriteRoom, WayFor, EntryRoom;
    CoreIsSized(cfg, s);
    DispatchKeepsCore(cfg, s, mf, time);
    WayIsFound(cfg, s, mf);
    var p := ProbeFor(cfg, s, mf);
    if mf.isWrite {
      if p.status == HIT {
        WriteHitAccepts(cfg, s, mf, time);
      } else {
        WriteMissAccepts(cfg, s, mf, time);
      }
    } else if p.status == HIT {
      HitIsTaken(cfg, s, mf, p.idx, time);
    } else if p.status != RESERVATION_FAIL {
      if Unreadable(cfg, s, mf) {
        UnreadableRoom(cfg, s, mf);
        UnreadableIsRefused(cfg, s, mf, p.idx, time);
      } else {
        ReadMissAccepts(cfg, s, mf, time);
      }
    }
  }

  // a read that finds an unreadable line has room exactly if it fails
  lemma UnreadableRoom(cfg: Config, s: CacheState, mf: MemFetch)
    requires Sized(cfg, s.tags) && cfg.writePolicy != READ_ONLY && Unreadable(cfg, s, mf) && !mf.isWrite
    ensures Slots(cfg, s, 2) && EntryRoom(cfg, s, mf) <==> Fails(cfg, s, mf)
  {
    hide ProbeFor;
  }

  lemma DataAccessAccepts(cfg: Config, s: CacheState, mf: MemFetch, time: nat)
    requires CoreInv(cfg, s) && Presentable(cfg, s, mf, time) && cfg.writePolicy != READ_ONLY
    ensures Accepts(DataAccess(cfg, s, mf, time)) <==> Room(cfg, s, mf) && !Fails(cfg, s, mf)
  {
    hide CoreInv, Dispatch, ProbeFor, Sized, EnqueueHitResponse, WriteRoom, ReadRoom, Fails, Named;
    CoreIsSized(cfg, s);
    if !(ProbeFor(cfg, s, mf).status == HIT && HitQueueFull(cfg, s)) {
      DispatchAccepts(cfg, s, mf, time);
      DispatchKeepsCore(cfg, s, mf, time);
    }
  }

  lemma ReadOnlyAccepts(cfg: Config, s: CacheState, mf: MemFetch, time: nat)
    requires CoreInv(cfg, s) && Presentable(cfg, s, mf, time) && cfg.writePolicy == READ_ONLY
    ensures Accepts(ReadOnlyAccess(cfg, s, mf, time)) <==> Room(cfg, s, mf)
  {
    hide CoreInv, ProbeFor, Sized, EnqueueHitResponse, TagAccess, SendRead, Unreadable, Named, WayFor;
    CoreIsSized(cfg, s);
    WayIsFound(cfg, s, mf);
    ReadOnlyAccessKeepsCore(cfg, s, mf, time);
    var p := ProbeFor(cfg, s, mf);
    if p.status == HIT {
      HitIsTaken(cfg, s, mf, p.idx, time);
    } else if p.status != RESERVATION_FAIL && !MissQueueFull(cfg, s, 0) {
      if Unreadable(cfg, s, mf) {
        FailsOnLazyLinesOnly(cfg, s, mf);
      }
      if MshrAccepts(cfg, s, cfg.MshrAddr(mf.addr)) {
        SendKeepsCore(cfg, s, mf, p.idx, time);
      } else {
        SendReadRefuses(cfg, s, mf, p.idx, time);
      }
    }
  }

  lemma UnreadableIsRefused(cfg: Config, s: CacheState, mf: MemFetch, idx: nat, time: nat)
    requires Sized(cfg, s.tags) && idx < |s.tags.lines| && Unreadable(cfg, s, mf)
    ensures !Accepts(RdMiss(cfg, s, mf, idx, time))
  {
    hide SendRead, Unreadable, MshrAccepts;
    if !MissQueueFull(cfg, s, 1) {
      if MshrAccepts(cfg, s, cfg.MshrAddr(mf.addr)) {
        UnreadableFails(cfg, s, mf, idx, time);
      } else {
        SendReadRefuses(cfg, s, mf, idx, time);
      }
    }
  }

  /** Under every policy a request is accepted if and only if the room it needs is there,
      but for the reads on which access() fails an assertion. */
  lemma AcceptedExactlyWhen(cfg: Config, s: CacheState, mf: MemFetch, time: nat)
    requires CoreInv(cfg, s) && Presentable(cfg, s, mf, time)
    ensures CacheAccess(cfg, s, mf, time).Some? && CacheAccess(cfg, s, mf, time).value.status != RESERVATION_FAIL
            <==> Room(cfg, s, mf) && !Fails(cfg, s, mf)
  {
    hide CoreInv, DataAccess, ReadOnlyAccess, Room, Fails;
    CoreIsSized(cfg, s);
    if cfg.writePolicy == READ_ONLY {
      ReadOnlyAccessKeepsCore(cfg, s, mf, time);
      ReadOnlyAccepts(cfg, s, mf, time);
    } else {
      DataAccessAccepts(cfg, s, mf, time);
    }
  }

  // ---- in a drained cache ----

  // sizes that suffice for one request of any kind
  predicate Roomy(cfg: Config) { cfg.missQueueSize >= 3 && cfg.hitQueueSize >= 1 && cfg.mshrEntries >= 1 }

  lemma DrainedHasRoom(cfg: Config, s: CacheState, mf: MemFetch)
    requires Sized(cfg, s.tags) && Roomy(cfg) && QueuesEmpty(s) && WayFor(cfg, s, mf)
    ensures Room(cfg, s, mf)
  {
    hide ProbeFor, WayFor;
  }

  // some way of the set is not modified, or modified lines may be taken
  ghost predicate NotFull(cfg: Config, s: CacheState, mf: MemFetch)
    requires cfg.lineSize > 0
  {
    exists j: nat :: WayOf(cfg, cfg.BlockAddr(mf.addr), j) && j < |s.tags.lines|
      && (!s.tags.lines[j].IsModifiedLine() || OverDirtyLimit(cfg, s.tags.dirty))
  }

  /** From every reachable state of a cache under the covered policies some run of a
      collecting client and a willing lower level drains it, after which any request to a
      set that is not full of modified lines is accepted. */
  lemma RefusedIsAcceptedLater(cfg: Config, sys: CacheSystem, mf: MemFetch, time: nat)
    returns (events: seq<CacheEvent>)
    requires SystemInv(cfg, sys) && CacheInv(cfg, sys.s) && Roomy(cfg) && Presentable(cfg, sys.s, mf, time)
    ensures LegalRun(cfg, sys, events) && Run(cfg, sys, events).Some?
    ensures forall e :: e in events ==> Draining(e)
    ensures var s := Run(cfg, sys, events).value.s;
      && QueuesEmpty(s) && Sized(cfg, s.tags)
      && (NotFull(cfg, s, mf) ==>
            CacheAccess(cfg, s, mf, time).Some? && CacheAccess(cfg, s, mf, time).value.status != RESERVATION_FAIL)
  {
    hide SystemInv, CacheInv, CoreInv, CacheAccess, NotFull, WayFor, Fails, Room, Block.IsPinned, Block.IsReservedLine;
    InvIsSized(cfg, sys.s);
    events := DrainsCompletely(cfg, sys);
    RunKeepsCovered(cfg, sys, events);
    var s := Run(cfg, sys, events).value.s;
    InvIsCore(cfg, s);
    CoreIsSized(cfg, s);
    if NotFull(cfg, s, mf) {
      DrainedHasWay(cfg, s, mf);
      DrainedHasRoom(cfg, s, mf);
      StillPresentable(cfg, sys.s, s, mf, time);
      CoveredNeverFails(cfg, s, mf, time);
      AcceptedExactlyWhen(cfg, s, mf, time);
    }
  }

  lemma DrainedHasWay(cfg: Config, s: CacheState, mf: MemFetch)
    requires cfg.lineSize > 0 && NotFull(cfg, s, mf)
    requires forall i :: 0 <= i < |s.tags.lines| ==> !s.tags.lines[i].IsPinned() && !s.tags.lines[i].IsReservedLine()
    ensures WayFor(cfg, s, mf)
  {
    hide BearsTag, Free, Holds, Block.IsPinned, Block.IsReservedLine, Block.IsModifiedLine;
    var j: nat :| WayOf(cfg, cfg.BlockAddr(mf.addr), j) && j < |s.tags.lines|
      && (!s.tags.lines[j].IsModifiedLine() || OverDirtyLimit(cfg, s.tags.dirty));
    LineIsUsable(cfg, s, s.tags.lines[j], cfg.BlockAddr(mf.addr));
  }

  lemma StillPresentable(cfg: Config, s: CacheState, s': CacheState, mf: MemFetch, time: nat)
    requires cfg.lineSize > 0 && Presentable(cfg, s, mf, time) && s'.pending == map[]
    ensures Presentable(cfg, s', mf, time)
  {
  }

  lemma CoveredNeverFails(cfg: Config, s: CacheState, mf: MemFetch, time: nat)
    requires CacheInv(cfg, s) && Sized(cfg, s.tags) && Presentable(cfg, s, mf, time) && CoreInv(cfg, s)
    ensures !Fails(cfg, s, mf)
  {
    hide CacheInv, CoreInv, CacheAccess, Fails, Presentable;
    AccessKeepsInv(cfg, s, mf, time);
    AccessFailsExactlyWhen(cfg, s, mf, time);
  }
}
