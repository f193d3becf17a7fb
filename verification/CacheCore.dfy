/** What every configuration keeps, whatever its write policy: pins, MSHR entries,
    saved line indices and accounts stay exact, and access() fails an assertion in one
    case only. */
module CacheCore {
  import opened CacheTypes
  import opened Options
  import opened TagArrays
  import opened CacheModel
  import opened CacheLines
  import opened CacheAdmission
  import opened CacheInvariant
  import opened CacheReads
  import opened CacheSteps
  import opened CacheOperations
  import opened CacheReturns

  // ---- the invariant ----

  // LAZY_FETCH_ON_READ over whole lines: a line partly written can never be read
  predicate LazyLines(cfg: Config) {
    cfg.cacheType == NORMAL && cfg.writePolicy != READ_ONLY && cfg.writeAllocate == LAZY_FETCH_ON_READ
  }

  ghost predicate CleanLine(b: Block) {
    forall sec: SectorId :: b.sectors[sec].status != MODIFIED && !b.sectors[sec].modifiedOnFill
  }

  ghost predicate Shaped(cfg: Config, b: Block) {
    && (!b.IsInvalidLine() ==> b.blockAddr == b.tag)
    && (cfg.cacheType == NORMAL ==>
          b.sectors[1] == INITIAL_SECTOR && b.sectors[2] == INITIAL_SECTOR && b.sectors[3] == INITIAL_SECTOR
          && (b.sectors[0].readable || LazyLines(cfg)))
    && b.lastAccess < TIME_SENTINEL && b.allocTime < TIME_SENTINEL
    && (cfg.writePolicy == READ_ONLY ==> CleanLine(b))
  }

  ghost predicate AllShaped(cfg: Config, lines: seq<Block>) { forall i :: 0 <= i < |lines| ==> Shaped(cfg, lines[i]) }

  ghost predicate Named(b: Block, block: nat) { b.tag == block && b.blockAddr == block }

  // the line pinned for a response still bears the address of its block
  ghost predicate PinsNamed(cfg: Config, lines: seq<Block>, pending: map<MemFetch, nat>)
    requires cfg.lineSize > 0
  {
    forall mf :: mf in pending ==>
      pending[mf] < |lines| && WellFormed(cfg, mf) && Named(lines[pending[mf]], cfg.BlockAddr(mf.addr))
  }

  ghost predicate CoreInv(cfg: Config, s: CacheState) {
    && Sized(cfg, s.tags) && AllShaped(cfg, s.tags.lines)
    && PinsExact(s.tags.lines, s.pending) && PinsNamed(cfg, s.tags.lines, s.pending)
    && MshrsOk(cfg, s.mshr, s.ready, s.extra, s.pending)
    && Accounted(cfg, s) && IdsUsed(s.pending, s.nextId) && HitsTicking(s.hitQueue)
    && WithinCapacity(cfg, s)
  }

  lemma InvIsCore(cfg: Config, s: CacheState)
    requires CacheInv(cfg, s)
    ensures CoreInv(cfg, s)
  {
    hide MshrsOk, SectorsOk, Accounted, PinsExact, MshrWithinCapacity, DirtyExact, Config.BlockAddr, WellFormed;
    forall i | 0 <= i < |s.tags.lines|
      ensures Shaped(cfg, s.tags.lines[i])
    {
      assert LineOk(cfg, s.tags.lines[i], i);
    }
    forall mf | mf in s.pending
      ensures Named(s.tags.lines[s.pending[mf]], cfg.BlockAddr(mf.addr))
    {
      assert LineOk(cfg, s.tags.lines[s.pending[mf]], s.pending[mf]);
    }
  }

  lemma CoreIsSized(cfg: Config, s: CacheState)
    requires CoreInv(cfg, s)
    ensures Sized(cfg, s.tags) && cfg.Valid() && AllShaped(cfg, s.tags.lines)
    ensures IdsUsed(s.pending, s.nextId) && WithinCapacity(cfg, s)
  {
  }

  // ---- one line ----

  // a pinned line keeps its name, and every line its pins
  ghost predicate LineStep(b: Block, b': Block) {
    b'.pins == b.pins && (b.pins == 0 || (b'.tag == b.tag && b'.blockAddr == b.blockAddr))
  }

  lemma LineStepKeepsPins(cfg: Config, lines: seq<Block>, pending: map<MemFetch, nat>, i: nat, b: Block)
    requires cfg.lineSize > 0 && i < |lines| && LineStep(lines[i], b)
    requires PinsExact(lines, pending) && PinsNamed(cfg, lines, pending)
    ensures PinsExact(lines[i := b], pending) && PinsNamed(cfg, lines[i := b], pending)
  {
    if lines[i].pins == 0 {
      UnpinnedHoldsNothing(lines, pending, i);
    }
  }

  lemma LineStepKeepsCore(cfg: Config, s: CacheState, tags': Tags, i: nat, b: Block)
    requires CoreInv(cfg, s) && i < |s.tags.lines| && tags'.lines == s.tags.lines[i := b]
    requires LineStep(s.tags.lines[i], b) && Shaped(cfg, b)
    ensures CoreInv(cfg, s.(tags := tags'))
  {
    hide MshrsOk, PinsExact, PinsNamed, Places, Shaped, LineStep, MshrWithinCapacity;
    LineStepKeepsPins(cfg, s.tags.lines, s.pending, i, b);
    SameAccounts(cfg, s, s.(tags := tags'));
  }

  lemma QueueKeepsCore(cfg: Config, s: CacheState, q: seq<Packet>, nextId: nat)
    requires CoreInv(cfg, s) && |q| <= cfg.missQueueSize && nextId >= s.nextId
    ensures CoreInv(cfg, s.(missQueue := q, nextId := nextId))
  {
    hide MshrsOk, PinsExact, PinsNamed, Places, AllShaped, MshrWithinCapacity;
    SameAccounts(cfg, s, s.(missQueue := q, nextId := nextId));
  }

  // ---- the tags ----

  // what tag_array::access leaves of the line it chose
  ghost predicate Taken(cfg: Config, tags: Tags, mf: MemFetch, r: AccessResult)
    requires cfg.lineSize > 0 && r.idx < |tags.lines|
  {
    && |r.tags.lines| == |tags.lines| && r.tags.lines == tags.lines[r.idx := r.tags.lines[r.idx]]
    && var (b, b') := (tags.lines[r.idx], r.tags.lines[r.idx]);
       && LineStep(b, b') && Shaped(cfg, b') && Holds(b', cfg.BlockAddr(mf.addr))
       && (r.evicted.Some? ==> r.status == MISS && cfg.writePolicy != READ_ONLY)
  }

  /** tag_array::access fails its assertion exactly when a read finds a whole line
      modified and not readable; otherwise it takes the line that the probe named. */
  lemma TagsAreTaken(cfg: Config, tags: Tags, mf: MemFetch, idx: nat, time: nat)
    requires Sized(cfg, tags) && AllShaped(cfg, tags.lines) && idx < |tags.lines| && time < TIME_SENTINEL
    ensures var p := ProbeTags(cfg, tags, cfg.BlockAddr(mf.addr), cfg.SectorOf(mf), mf.isWrite);
      && (TagAccess(cfg, tags, idx, mf, time).None? <==> p.status == SECTOR_MISS && cfg.cacheType == NORMAL)
      && (p.status == SECTOR_MISS && cfg.cacheType == NORMAL ==> LazyLines(cfg) && !mf.isWrite)
      && (TagAccess(cfg, tags, idx, mf, time).Some? ==>
            var r := TagAccess(cfg, tags, idx, mf, time).value;
            && r.status == p.status && |r.tags.lines| == |tags.lines|
            && (r.status == RESERVATION_FAIL ==> r.tags == tags && r.evicted.None?)
            && (r.status != RESERVATION_FAIL ==> r.idx == p.idx && Taken(cfg, tags, mf, r)))
  {
    var (block, sec) := (cfg.BlockAddr(mf.addr), cfg.SectorOf(mf));
    BlockAddrTwice(cfg, mf.addr);
    hide Config.BlockAddr;
    var p := ProbeTags(cfg, tags, block, sec, mf.isWrite);
    var b := tags.lines[p.idx];
    ProbeFound(cfg, tags, block, sec, mf.isWrite);
    hide ProbeTags;
    assert Shaped(cfg, b);
    match p.status {
      case HIT | HIT_RESERVED => TouchedLine(cfg, b, time);
      case SECTOR_MISS =>
        if cfg.cacheType == SECTOR {
          GrownLine(cfg, b, time, sec);
        }
      case MISS => TakenLine(cfg, b, block, time, sec);
      case RESERVATION_FAIL =>
    }
  }

  // what the search found, without knowing that blocks are unique
  lemma ProbeFound(cfg: Config, tags: Tags, addr: nat, sec: SectorId, isWrite: bool)
    requires Sized(cfg, tags) && cfg.BlockAddr(addr) == addr
    ensures var p := ProbeTags(cfg, tags, addr, sec, isWrite);
      && (p.status in {HIT, HIT_RESERVED, SECTOR_MISS} ==>
            Holds(tags.lines[p.idx], addr) && p.status == HitStatus(tags.lines[p.idx].sectors[sec], isWrite))
      && (p.status == MISS ==> !tags.lines[p.idx].IsPinned() && !tags.lines[p.idx].IsReservedLine())
  {
  }

  lemma TouchedLine(cfg: Config, b: Block, time: nat)
    requires Shaped(cfg, b) && time < TIME_SENTINEL
    ensures Shaped(cfg, b.Touch(time)) && LineStep(b, b.Touch(time))
    ensures b.Touch(time).IsInvalidLine() == b.IsInvalidLine()
  {
  }

  lemma GrownLine(cfg: Config, b: Block, time: nat, sec: SectorId)
    requires Shaped(cfg, b) && !b.IsInvalidLine() && time < TIME_SENTINEL && cfg.cacheType == SECTOR
    ensures var b' := b.AllocateSector(time, sec); Shaped(cfg, b') && LineStep(b, b') && !b'.IsInvalidLine()
  {
    assert b.AllocateSector(time, sec).sectors[sec].status == RESERVED;
  }

  lemma TakenLine(cfg: Config, b: Block, block: nat, time: nat, sec: SectorId)
    requires Shaped(cfg, b) && !b.IsPinned() && time < TIME_SENTINEL && (cfg.cacheType == NORMAL ==> sec == 0)
    ensures var b' := b.Allocate(cfg.cacheType, block, block, time, sec);
      && Shaped(cfg, b') && LineStep(b, b') && Holds(b', block)
    ensures cfg.writePolicy == READ_ONLY ==> !b.IsModifiedLine()
  {
    var b' := b.Allocate(cfg.cacheType, block, block, time, sec);
    assert b'.sectors[sec].status == RESERVED;
    assert cfg.writePolicy == READ_ONLY ==> CleanLine(b);
  }

  // ---- reads sent down ----

  lemma PinningKeepsPins(cfg: Config, lines: seq<Block>, pending: map<MemFetch, nat>, mf: MemFetch, i: nat)
    requires cfg.lineSize > 0 && PinsExact(lines, pending) && PinsNamed(cfg, lines, pending)
    requires i < |lines| && mf !in pending && WellFormed(cfg, mf) && Named(lines[i], cfg.BlockAddr(mf.addr))
    ensures PinsExact(lines[i := lines[i].Pin()], pending[mf := i])
    ensures PinsNamed(cfg, lines[i := lines[i].Pin()], pending[mf := i])
  {
    hide PinsExact, Config.BlockAddr, WellFormed;
    PinAdds(lines, pending, mf, i);
  }

  lemma PinningKeepsShape(cfg: Config, lines: seq<Block>, i: nat)
    requires AllShaped(cfg, lines) && i < |lines|
    ensures AllShaped(cfg, lines[i := lines[i].Pin()])
  {
    assert Shaped(cfg, lines[i]);
    assert CleanLine(lines[i]) ==> CleanLine(lines[i].Pin());
  }

  lemma TakenIsNamed(cfg: Config, tags: Tags, mf: MemFetch, r: AccessResult)
    requires cfg.lineSize > 0 && r.idx < |tags.lines| && Taken(cfg, tags, mf, r)
    ensures Named(r.tags.lines[r.idx], cfg.BlockAddr(mf.addr))
  {
  }

  // the unreadable case, in which the assertion of tag_array::access fails
  ghost predicate Unreadable(cfg: Config, s: CacheState, mf: MemFetch)
    requires Sized(cfg, s.tags)
  {
    cfg.cacheType == NORMAL && ProbeFor(cfg, s, mf).status == SECTOR_MISS
  }

  lemma SendKeepsCore(cfg: Config, s: CacheState, mf: MemFetch, idx: nat, time: nat)
    requires CoreInv(cfg, s) && ReadAdmitted(cfg, s, mf, idx) && time < TIME_SENTINEL && !Unreadable(cfg, s, mf)
    ensures SendRead(cfg, s, mf, idx, time).Some?
    ensures var r := SendRead(cfg, s, mf, idx, time).value;
      && r.doMiss && CoreInv(cfg, r.s) && |r.s.missQueue| <= |s.missQueue| + 1
      && (r.evicted.Some? ==> ProbeFor(cfg, s, mf).status == MISS)
      && Named(r.s.tags.lines[idx], cfg.BlockAddr(mf.addr))
  {
    hide Config.MshrAddr, Config.BlockAddr, WellFormed, MshrsOk, TagAccess, ProbeTags, PinsExact, PinsNamed, LineStep,
         Shaped, Holds, Places, SendRead, MshrAdd, MshrAccepts, MshrWithinCapacity, AllShaped;
    TagsAreTaken(cfg, s.tags, mf, idx, time);
    var r := TagAccess(cfg, s.tags, idx, mf, time).value;
    TakenIsNamed(cfg, s.tags, mf, r);
    LineStepKeepsCore(cfg, s, r.tags, idx, r.tags.lines[idx]);
    PinningKeepsPins(cfg, r.tags.lines, s.pending, mf, idx);
    PinningKeepsShape(cfg, r.tags.lines, idx);
    AddKeepsMshrs(cfg, s.mshr, s.ready, s.extra, s.pending, mf, idx);
    AcceptedFits(cfg, s, mf);
    SendKeepsAccounts(cfg, s, mf, idx);
    SendReadValue(cfg, s, mf, idx, time);
    SameAccounts(cfg, s.(mshr := MshrAdd(s.mshr, cfg.MshrAddr(mf.addr), mf), pending := s.pending[mf := idx]),
                 AfterRead(cfg, s, mf, idx, r.tags));
  }

  lemma AcceptedFits(cfg: Config, s: CacheState, mf: MemFetch)
    requires cfg.Valid() && MshrWithinCapacity(cfg, s.mshr) && MshrAccepts(cfg, s, cfg.MshrAddr(mf.addr))
    ensures MshrWithinCapacity(cfg, MshrAdd(s.mshr, cfg.MshrAddr(mf.addr), mf))
  {
    hide Config.MshrAddr, MshrWithinCapacity;
    AddKeepsCapacity(cfg, s.mshr, cfg.MshrAddr(mf.addr), mf);
  }

  lemma WriteBackKeepsCore(cfg: Config, s: CacheState, evicted: Option<Evicted>)
    requires CoreInv(cfg, s) && |s.missQueue| < cfg.missQueueSize
    ensures CoreInv(cfg, SendWriteBack(cfg, s, evicted))
  {
    hide CoreInv;
    QueueKeepsCore(cfg, s, SendWriteBack(cfg, s, evicted).missQueue, s.nextId);
    assert s == s.(nextId := s.nextId);
  }

  lemma ReadMissKeepsCore(cfg: Config, s: CacheState, mf: MemFetch, idx: nat, time: nat)
    requires CoreInv(cfg, s) && Presentable(cfg, s, mf, time) && !mf.isWrite && idx == ProbeFor(cfg, s, mf).idx
    requires ProbeFor(cfg, s, mf).status != HIT && ProbeFor(cfg, s, mf).status != RESERVATION_FAIL
    ensures var a := cfg.MshrAddr(mf.addr);
      RdMiss(cfg, s, mf, idx, time).None? <==>
        Unreadable(cfg, s, mf) && !MissQueueFull(cfg, s, 1) && MshrAccepts(cfg, s, a)
    ensures RdMiss(cfg, s, mf, idx, time).Some? ==> CoreInv(cfg, RdMiss(cfg, s, mf, idx, time).value.s)
  {
    hide SendRead, ProbeFor, Sized, CoreInv, MshrAccepts, SendWriteBack, Unreadable;
    CoreIsSized(cfg, s);
    if !MissQueueFull(cfg, s, 1) {
      if !MshrAccepts(cfg, s, cfg.MshrAddr(mf.addr)) {
        SendReadRefuses(cfg, s, mf, idx, time);
      } else if Unreadable(cfg, s, mf) {
        UnreadableFails(cfg, s, mf, idx, time);
      } else {
        SendKeepsCore(cfg, s, mf, idx, time);
        var r := SendRead(cfg, s, mf, idx, time).value;
        WriteBackKeepsCore(cfg, r.s, r.evicted);
      }
    }
  }

  lemma UnreadableFails(cfg: Config, s: CacheState, mf: MemFetch, idx: nat, time: nat)
    requires Sized(cfg, s.tags) && idx < |s.tags.lines| && Unreadable(cfg, s, mf)
    requires MshrAccepts(cfg, s, cfg.MshrAddr(mf.addr))
    ensures SendRead(cfg, s, mf, idx, time).None?
  {
    hide ProbeTags;
  }

  // ---- writes that miss ----

  // the fetch of a write: its probe is that of the write, and it is admitted
  lemma FetchIsAdmitted(cfg: Config, s: CacheState, sent: CacheState, mf: MemFetch, idx: nat, time: nat)
    requires CoreInv(cfg, s) && Presentable(cfg, s, mf, time) && mf.isWrite && idx == ProbeFor(cfg, s, mf).idx
    requires ProbeFor(cfg, s, mf).status != HIT && ProbeFor(cfg, s, mf).status != RESERVATION_FAIL
    requires sent == s.(missQueue := sent.missQueue, nextId := s.nextId + 1) && |sent.missQueue| < cfg.missQueueSize
    requires MshrAccepts(cfg, s, cfg.MshrAddr(mf.addr))
    ensures var fetch := AllocateFetch(cfg, s, mf);
      && CoreInv(cfg, sent) && ReadAdmitted(cfg, sent, fetch, idx) && !Unreadable(cfg, sent, fetch)
      && ProbeFor(cfg, sent, fetch) == ProbeFor(cfg, s, mf)
  {
    hide ProbeFor, CoreInv, MshrFull, Sized;
    CoreIsSized(cfg, s);
    var fetch := AllocateFetch(cfg, s, mf);
    QueueKeepsCore(cfg, s, sent.missQueue, sent.nextId);
    FetchProbesLikeWrite(cfg, s, mf);
    SameTagsSameProbe(cfg, s, sent, fetch);
    FreshIdIsNotPending(cfg, s, fetch);
    SameMshrsSameRoom(cfg, s, sent, cfg.MshrAddr(mf.addr));
    WritesAreReadable(cfg, s, mf, idx, time);
  }

  lemma WritesAreReadable(cfg: Config, s: CacheState, mf: MemFetch, idx: nat, time: nat)
    requires CoreInv(cfg, s) && mf.isWrite && idx < |s.tags.lines| && time < TIME_SENTINEL
    ensures !Unreadable(cfg, s, mf)
  {
    hide TagAccess, ProbeTags, PinsExact, PinsNamed, MshrsOk, Accounted, WithinCapacity, AllShaped, Taken;
    TagsAreTaken(cfg, s.tags, mf, idx, time);
  }

  lemma WriteAllocateKeepsCore(cfg: Config, s: CacheState, mf: MemFetch, idx: nat, time: nat, probed: RequestStatus)
    requires CoreInv(cfg, s) && Presentable(cfg, s, mf, time) && mf.isWrite
    requires ProbeResult(probed, idx) == ProbeFor(cfg, s, mf) && probed != HIT && probed != RESERVATION_FAIL
    ensures WrMissWriteAllocate(cfg, s, mf, idx, time, probed).Some?
    ensures CoreInv(cfg, WrMissWriteAllocate(cfg, s, mf, idx, time, probed).value.s)
  {
    hide SendRead, ProbeFor, Sized, CoreInv, SendWriteBack, MshrAccepts, ReadAdmitted, Unreadable, Named;
    CoreIsSized(cfg, s);
    if !MissQueueFull(cfg, s, 2) && MshrAccepts(cfg, s, cfg.MshrAddr(mf.addr)) {
      var sent := s.(missQueue := s.missQueue + [WritePacket(mf)], nextId := s.nextId + 1);
      FetchIsAdmitted(cfg, s, sent, mf, idx, time);
      SendKeepsCore(cfg, sent, AllocateFetch(cfg, s, mf), idx, time);
      var r := SendRead(cfg, sent, AllocateFetch(cfg, s, mf), idx, time).value;
      WriteBackKeepsCore(cfg, r.s, r.evicted);
    }
  }

  // the flags that a fetching store leaves in its line
  lemma MarkKeepsCore(cfg: Config, s: CacheState, i: nat, sec: SectorId)
    requires CoreInv(cfg, s) && i < |s.tags.lines| && cfg.writePolicy != READ_ONLY
    requires cfg.cacheType == NORMAL ==> sec == 0
    ensures var b := s.tags.lines[i].SetModifiedOnFill(true, sec).SetByteMaskOnFill(true);
      CoreInv(cfg, s.(tags := OnLine(s.tags, i, b)))
  {
    hide MshrsOk, PinsExact, PinsNamed, Accounted, WithinCapacity;
    var b := s.tags.lines[i].SetModifiedOnFill(true, sec).SetByteMaskOnFill(true);
    assert Shaped(cfg, s.tags.lines[i]);
    assert b.IsInvalidLine() == s.tags.lines[i].IsInvalidLine();
    LineStepKeepsCore(cfg, s, OnLine(s.tags, i, b), i, b);
  }

  lemma FetchKeepsCore(cfg: Config, s: CacheState, mf: MemFetch, idx: nat, time: nat)
    requires CoreInv(cfg, s) && Presentable(cfg, s, mf, time) && mf.isWrite && idx == ProbeFor(cfg, s, mf).idx
    requires ProbeFor(cfg, s, mf).status != HIT && ProbeFor(cfg, s, mf).status != RESERVATION_FAIL
    requires !MissQueueFull(cfg, s, 1) && MshrAccepts(cfg, s, cfg.MshrAddr(mf.addr)) && cfg.writePolicy != READ_ONLY
    ensures FetchAndMark(cfg, s, mf, idx, time).Some?
    ensures CoreInv(cfg, FetchAndMark(cfg, s, mf, idx, time).value.s)
  {
    hide SendRead, ProbeFor, Sized, CoreInv, SendWriteBack, MshrAccepts, ReadAdmitted, Unreadable, Named,
         Block.SetModifiedOnFill, Block.SetByteMaskOnFill, OnLine;
    CoreIsSized(cfg, s);
    var sent := s.(nextId := s.nextId + 1);
    assert sent == s.(missQueue := sent.missQueue, nextId := s.nextId + 1);
    FetchIsAdmitted(cfg, s, sent, mf, idx, time);
    SendKeepsCore(cfg, sent, AllocateFetch(cfg, s, mf), idx, time);
    var r := SendRead(cfg, sent, AllocateFetch(cfg, s, mf), idx, time).value;
    CoreIsSized(cfg, r.s);
    MarkKeepsCore(cfg, r.s, idx, cfg.SectorOf(mf));
    var b := r.s.tags.lines[idx].SetModifiedOnFill(true, cfg.SectorOf(mf)).SetByteMaskOnFill(true);
    WriteBackKeepsCore(cfg, r.s.(tags := OnLine(r.s.tags, idx, b)), r.evicted);
  }

  // a written line, whatever its flags
  lemma WrittenKeepsShape(cfg: Config, b: Block, w: Block, mf: MemFetch)
    requires Shaped(cfg, b) && !b.IsInvalidLine() && cfg.writePolicy != READ_ONLY
    requires w.tag == b.tag && w.blockAddr == b.blockAddr && w.pins == b.pins
    requires w.lastAccess == b.lastAccess && w.allocTime == b.allocTime
    requires forall k: SectorId :: k != cfg.SectorOf(mf) ==> w.sectors[k] == b.sectors[k]
    requires b.sectors[cfg.SectorOf(mf)].readable && !LazyLines(cfg) ==> w.sectors[cfg.SectorOf(mf)].readable
    ensures Shaped(cfg, w) && LineStep(b, w)
  {
  }

  // the line part of a store that takes a line and writes it
  lemma StoreKeepsCore(cfg: Config, s: CacheState, mf: MemFetch, r: AccessResult, tags': Tags, w: Block)
    requires CoreInv(cfg, s) && r.idx < |s.tags.lines| && Taken(cfg, s.tags, mf, r)
    requires tags'.lines == r.tags.lines[r.idx := w]
    requires Shaped(cfg, w) && LineStep(r.tags.lines[r.idx], w)
    ensures CoreInv(cfg, s.(tags := tags'))
  {
    hide CoreInv, Shaped, Holds;
    LineStepKeepsCore(cfg, s, tags', r.idx, w);
  }

  lemma FullStoreKeepsCore(cfg: Config, s: CacheState, mf: MemFetch, r: AccessResult)
    requires CoreInv(cfg, s) && r.idx < |s.tags.lines| && Taken(cfg, s.tags, mf, r) && cfg.writePolicy != READ_ONLY
    ensures CoreInv(cfg, s.(tags := WriteInto(cfg, r.tags, r.idx, mf)))
  {
    hide CoreInv, Shaped, LineStep;
    var b := r.tags.lines[r.idx];
    var w := b.SetStatus(MODIFIED, cfg.SectorOf(mf)).SetByteMask(mf.bytes);
    WrittenKeepsShape(cfg, b, w, mf);
    StoreKeepsCore(cfg, s, mf, r, WriteInto(cfg, r.tags, r.idx, mf), w);
  }

  lemma FetchOnWriteKeepsCore(cfg: Config, s: CacheState, mf: MemFetch, idx: nat, time: nat)
    requires CoreInv(cfg, s) && Presentable(cfg, s, mf, time) && mf.isWrite && cfg.writePolicy != READ_ONLY
    requires idx == ProbeFor(cfg, s, mf).idx
    requires ProbeFor(cfg, s, mf).status != HIT && ProbeFor(cfg, s, mf).status != RESERVATION_FAIL
    ensures WrMissFetchOnWrite(cfg, s, mf, idx, time).Some?
    ensures CoreInv(cfg, WrMissFetchOnWrite(cfg, s, mf, idx, time).value.s)
  {
    hide CoreInv, TagAccess, ProbeTags, WriteInto, FetchAndMark, SendWriteBack, Taken, MshrAccepts, AllShaped, Sized,
         ReadAfterWritePending;
    CoreIsSized(cfg, s);
    if |mf.bytes| != cfg.AtomSize() {
      if !MissQueueFull(cfg, s, 1) && MshrAccepts(cfg, s, cfg.MshrAddr(mf.addr)) {
        FetchKeepsCore(cfg, s, mf, idx, time);
      }
    } else if !MissQueueFull(cfg, s, 0) {
      WritesAreReadable(cfg, s, mf, idx, time);
      TagsAreTaken(cfg, s.tags, mf, idx, time);
      var r := TagAccess(cfg, s.tags, idx, mf, time).value;
      FullStoreKeepsCore(cfg, s, mf, r);
      WriteBackKeepsCore(cfg, s.(tags := WriteInto(cfg, r.tags, r.idx, mf)), r.evicted);
    }
  }

  lemma LazyStoreKeepsCore(cfg: Config, s: CacheState, mf: MemFetch, r: AccessResult)
    requires CoreInv(cfg, s) && r.idx < |s.tags.lines| && Taken(cfg, s.tags, mf, r) && cfg.writePolicy != READ_ONLY
    requires cfg.writeAllocate == LAZY_FETCH_ON_READ
    ensures CoreInv(cfg, s.(tags := LazyWrite(cfg, r.tags, r.idx, mf, r.status)))
  {
    hide CoreInv, Shaped, LineStep, LazyBlock;
    var b := r.tags.lines[r.idx];
    var w := LazyBlock(cfg, b, mf, r.status);
    LazyBlockIsWritten(cfg, b, mf, r.status);
    LazyKeepsShape(cfg, b, w, mf);
    StoreKeepsCore(cfg, s, mf, r, LazyWrite(cfg, r.tags, r.idx, mf, r.status), w);
  }

  lemma LazyKeepsShape(cfg: Config, b: Block, w: Block, mf: MemFetch)
    requires Shaped(cfg, b) && !b.IsInvalidLine() && cfg.writePolicy != READ_ONLY
    requires cfg.writeAllocate == LAZY_FETCH_ON_READ
    requires w.tag == b.tag && w.blockAddr == b.blockAddr && w.pins == b.pins
    requires w.lastAccess == b.lastAccess && w.allocTime == b.allocTime
    requires forall k: SectorId :: k != cfg.SectorOf(mf) ==> w.sectors[k] == b.sectors[k]
    ensures Shaped(cfg, w) && LineStep(b, w)
  {
  }

  lemma LazyKeepsCore(cfg: Config, s: CacheState, mf: MemFetch, idx: nat, time: nat)
    requires CoreInv(cfg, s) && Presentable(cfg, s, mf, time) && mf.isWrite && cfg.writePolicy != READ_ONLY
    requires cfg.writeAllocate == LAZY_FETCH_ON_READ && idx == ProbeFor(cfg, s, mf).idx
    requires ProbeFor(cfg, s, mf).status != HIT && ProbeFor(cfg, s, mf).status != RESERVATION_FAIL
    ensures WrMissLazy(cfg, s, mf, idx, time).Some?
    ensures CoreInv(cfg, WrMissLazy(cfg, s, mf, idx, time).value.s)
  {
    hide CoreInv, TagAccess, ProbeTags, LazyWrite, Taken, AllShaped, Sized;
    CoreIsSized(cfg, s);
    if !MissQueueFull(cfg, s, 0) {
      WritesAreReadable(cfg, s, mf, idx, time);
      TagsAreTaken(cfg, s.tags, mf, idx, time);
      var r := TagAccess(cfg, s.tags, idx, mf, time).value;
      LazyStoreKeepsCore(cfg, s, mf, r);
      var t := LazyWrite(cfg, r.tags, r.idx, mf, r.status);
      var o := WrMissLazy(cfg, s, mf, idx, time).value;
      assert |o.s.missQueue| <= |s.missQueue| + 1;
      QueueKeepsCore(cfg, s.(tags := t), o.s.missQueue, s.nextId);
      assert o.s == s.(tags := t).(missQueue := o.s.missQueue, nextId := s.nextId);
    }
  }

  lemma NoAllocateKeepsCore(cfg: Config, s: CacheState, mf: MemFetch)
    requires CoreInv(cfg, s)
    ensures WrMissNoAllocate(cfg, s, mf).Some? && CoreInv(cfg, WrMissNoAllocate(cfg, s, mf).value.s)
  {
    hide CoreInv;
    if !MissQueueFull(cfg, s, 0) {
      QueueKeepsCore(cfg, s, s.missQueue + [WritePacket(mf)], s.nextId);
    }
    assert s == s.(nextId := s.nextId);
  }

  lemma WriteMissKeepsCore(cfg: Config, s: CacheState, mf: MemFetch, idx: nat, time: nat, probed: RequestStatus)
    requires CoreInv(cfg, s) && Presentable(cfg, s, mf, time) && mf.isWrite && cfg.writePolicy != READ_ONLY
    requires ProbeResult(probed, idx) == ProbeFor(cfg, s, mf) && probed != HIT
    requires probed != RESERVATION_FAIL || cfg.writeAllocate == NO_WRITE_ALLOCATE
    ensures WrMiss(cfg, s, mf, idx, time, probed).Some?
    ensures CoreInv(cfg, WrMiss(cfg, s, mf, idx, time, probed).value.s)
  {
    hide CoreInv, WrMissWriteAllocate, WrMissLazy, WrMissNoAllocate, WrMissFetchOnWrite, ProbeFor, Sized;
    CoreIsSized(cfg, s);
    match cfg.writeAllocate {
      case NO_WRITE_ALLOCATE => NoAllocateKeepsCore(cfg, s, mf);
      case WRITE_ALLOCATE => WriteAllocateKeepsCore(cfg, s, mf, idx, time, probed);
      case FETCH_ON_WRITE => FetchOnWriteKeepsCore(cfg, s, mf, idx, time);
      case LAZY_FETCH_ON_READ => LazyKeepsCore(cfg, s, mf, idx, time);
    }
  }

  // ---- hits ----

  // a request that hits, and the line it will pin
  lemma HitIsTaken(cfg: Config, s: CacheState, mf: MemFetch, idx: nat, time: nat)
    requires CoreInv(cfg, s) && ProbeFor(cfg, s, mf) == ProbeResult(HIT, idx) && time < TIME_SENTINEL
    ensures TagAccess(cfg, s.tags, idx, mf, time).Some?
    ensures var r := TagAccess(cfg, s.tags, idx, mf, time).value;
      && r.status == HIT && r.idx == idx && r.evicted.None? && |r.tags.lines| == |s.tags.lines|
      && Taken(cfg, s.tags, mf, r) && Named(r.tags.lines[idx], cfg.BlockAddr(mf.addr))
      && CoreInv(cfg, s.(tags := r.tags))
  {
    hide TagAccess, ProbeTags, PinsExact, PinsNamed, MshrsOk, Accounted, WithinCapacity, AllShaped, Shaped, LineStep,
         HitsTicking, Config.BlockAddr;
    TagsAreTaken(cfg, s.tags, mf, idx, time);
    var r := TagAccess(cfg, s.tags, idx, mf, time).value;
    TakenIsNamed(cfg, s.tags, mf, r);
    LineStepKeepsCore(cfg, s, r.tags, idx, r.tags.lines[idx]);
  }

  lemma WriteBackHitKeepsCore(cfg: Config, s: CacheState, mf: MemFetch, idx: nat, time: nat)
    requires CoreInv(cfg, s) && Presentable(cfg, s, mf, time) && mf.isWrite && cfg.writePolicy != READ_ONLY
    requires ProbeFor(cfg, s, mf) == ProbeResult(HIT, idx)
    ensures WrHitWb(cfg, s, mf, idx, time).Some?
    ensures var o := WrHitWb(cfg, s, mf, idx, time).value;
      && CoreInv(cfg, o.s) && o.s == s.(tags := o.s.tags) && |o.s.tags.lines| == |s.tags.lines|
      && Named(o.s.tags.lines[idx], cfg.BlockAddr(mf.addr))
  {
    hide TagAccess, ProbeTags, CoreInv, AllShaped, Shaped, LineStep, Config.BlockAddr, SectorFullyDirty, Sized;
    CoreIsSized(cfg, s);
    HitIsTaken(cfg, s, mf, idx, time);
    var r := TagAccess(cfg, s.tags, idx, mf, time).value;
    var b := r.tags.lines[idx];
    var written := b.SetStatus(MODIFIED, cfg.SectorOf(mf)).SetByteMask(mf.bytes);
    var w := UpdateReadable(cfg, written, mf);
    UpdateReadableOnly(cfg, written, mf);
    WrittenKeepsShape(cfg, b, w, mf);
    var tags' := WrHitWb(cfg, s, mf, idx, time).value.s.tags;
    assert tags'.lines == r.tags.lines[idx := w];
    StoreKeepsCore(cfg, s, mf, r, tags', w);
  }

  lemma InvalidatedKeepsShape(cfg: Config, b: Block, sec: SectorId)
    requires Shaped(cfg, b) && !b.IsInvalidLine() && cfg.writePolicy != READ_ONLY
    requires cfg.cacheType == NORMAL ==> sec == 0
    ensures Shaped(cfg, b.SetStatus(INVALID, sec)) && LineStep(b, b.SetStatus(INVALID, sec))
  {
  }

  lemma EvictHitKeepsCore(cfg: Config, s: CacheState, mf: MemFetch, idx: nat)
    requires CoreInv(cfg, s) && cfg.writePolicy != READ_ONLY && ProbeFor(cfg, s, mf) == ProbeResult(HIT, idx)
    ensures WrHitWe(cfg, s, mf, idx).Some?
    ensures var o := WrHitWe(cfg, s, mf, idx).value;
      && CoreInv(cfg, o.s) && |o.s.tags.lines| == |s.tags.lines| && Named(o.s.tags.lines[idx], cfg.BlockAddr(mf.addr))
      && o.s == s.(tags := o.s.tags, missQueue := o.s.missQueue)
  {
    hide ProbeTags, CoreInv, Shaped, LineStep, Block.SetStatus, Config.BlockAddr;
    CoreIsSized(cfg, s);
    var b := s.tags.lines[idx];
    assert Shaped(cfg, b);
    HitIsNamed(cfg, s, mf, idx);
    var evicted := OnLine(s.tags, idx, b.SetStatus(INVALID, cfg.SectorOf(mf)));
    InvalidatedKeepsShape(cfg, b, cfg.SectorOf(mf));
    LineStepKeepsCore(cfg, s, evicted, idx, b.SetStatus(INVALID, cfg.SectorOf(mf)));
    if !MissQueueFull(cfg, s, 0) {
      QueueKeepsCore(cfg, s.(tags := evicted), s.missQueue + [WritePacket(mf)], s.nextId);
    }
    InvalidatedIsNamed(b, cfg.SectorOf(mf), cfg.BlockAddr(mf.addr));
  }

  lemma InvalidatedIsNamed(b: Block, sec: SectorId, block: nat)
    requires Named(b, block)
    ensures Named(b.SetStatus(INVALID, sec), block)
  {
  }

  lemma HitIsNamed(cfg: Config, s: CacheState, mf: MemFetch, idx: nat)
    requires CoreInv(cfg, s) && ProbeFor(cfg, s, mf) == ProbeResult(HIT, idx)
    ensures !s.tags.lines[idx].IsInvalidLine() && Named(s.tags.lines[idx], cfg.BlockAddr(mf.addr))
  {
    hide ProbeTags, PinsExact, PinsNamed, MshrsOk, Accounted, WithinCapacity, HitsTicking, IdsUsed;
    BlockAddrTwice(cfg, mf.addr);
    hide Config.BlockAddr;
    ProbeFound(cfg, s.tags, cfg.BlockAddr(mf.addr), cfg.SectorOf(mf), mf.isWrite);
    assert Shaped(cfg, s.tags.lines[idx]);
  }

  lemma WriteHitKeepsCore(cfg: Config, s: CacheState, mf: MemFetch, idx: nat, time: nat)
    requires CoreInv(cfg, s) && Presentable(cfg, s, mf, time) && mf.isWrite && cfg.writePolicy != READ_ONLY
    requires ProbeFor(cfg, s, mf) == ProbeResult(HIT, idx)
    ensures WrHit(cfg, s, mf, idx, time).Some?
    ensures var o := WrHit(cfg, s, mf, idx, time).value;
      && CoreInv(cfg, o.s) && |o.s.tags.lines| == |s.tags.lines| && Named(o.s.tags.lines[idx], cfg.BlockAddr(mf.addr))
      && o.s.hitQueue == s.hitQueue && o.s.pending == s.pending
  {
    hide CoreInv, WrHitWb, WrHitWe, ProbeFor, Sized, Named;
    CoreIsSized(cfg, s);
    WriteBackHitKeepsCore(cfg, s, mf, idx, time);
    EvictHitKeepsCore(cfg, s, mf, idx);
    HitIsNamed(cfg, s, mf, idx);
    var w := WrHitWb(cfg, s, mf, idx, time).value.s;
    if !MissQueueFull(cfg, s, 0) {
      QueueKeepsCore(cfg, w, s.missQueue + [WritePacket(mf)], w.nextId);
    }
    assert w == w.(nextId := w.nextId);
  }

  lemma EnqueueKeepsCore(cfg: Config, s: CacheState, mf: MemFetch, i: nat)
    requires CoreInv(cfg, s) && i < |s.tags.lines| && WellFormed(cfg, mf) && mf !in s.pending && mf.id.Client?
    requires Named(s.tags.lines[i], cfg.BlockAddr(mf.addr)) && !HitQueueFull(cfg, s)
    ensures CoreInv(cfg, EnqueueHitResponse(cfg, s, mf, i))
  {
    hide Config.MshrAddr, Config.BlockAddr, WellFormed, MshrsOk, PinsExact, PinsNamed, AllShaped, Places, HitLatency,
         MshrWithinCapacity, Named, Block.Pin;
    PinningKeepsPins(cfg, s.tags.lines, s.pending, mf, i);
    PinningKeepsShape(cfg, s.tags.lines, i);
    MorePendingKeepsMshrs(cfg, s.mshr, s.ready, s.extra, s.pending, mf, i);
    EnqueueKeepsAccounts(cfg, s, mf, i);
    LatencyIsPositive(cfg, mf);
  }

  // ---- access ----

  /** The requests on which access() fails an assertion. */
  ghost predicate Fails(cfg: Config, s: CacheState, mf: MemFetch)
    requires Sized(cfg, s.tags)
  {
    && !mf.isWrite && Unreadable(cfg, s, mf)
    && !MissQueueFull(cfg, s, 1) && MshrAccepts(cfg, s, cfg.MshrAddr(mf.addr))
  }

  lemma FailsOnLazyLinesOnly(cfg: Config, s: CacheState, mf: MemFetch)
    requires CoreInv(cfg, s) && Unreadable(cfg, s, mf)
    ensures LazyLines(cfg)
  {
    hide TagAccess, ProbeTags, PinsExact, PinsNamed, MshrsOk, Accounted, WithinCapacity, AllShaped, Taken;
    TagsAreTaken(cfg, s.tags, mf, ProbeFor(cfg, s, mf).idx, 0);
  }

  lemma DispatchKeepsCore(cfg: Config, s: CacheState, mf: MemFetch, time: nat)
    requires CoreInv(cfg, s) && Presentable(cfg, s, mf, time) && cfg.writePolicy != READ_ONLY
    ensures var p := ProbeFor(cfg, s, mf);
      && (Dispatch(cfg, s, mf, time, p).None? <==> Fails(cfg, s, mf))
      && (Dispatch(cfg, s, mf, time, p).Some? ==>
            var o := Dispatch(cfg, s, mf, time, p).value;
            && CoreInv(cfg, o.s)
            && (p.status == HIT ==>
                  && |o.s.tags.lines| == |s.tags.lines| && Named(o.s.tags.lines[p.idx], cfg.BlockAddr(mf.addr))
                  && o.s.hitQueue == s.hitQueue && o.s.pending == s.pending))
  {
    hide CoreInv, WrHit, WrMiss, RdMiss, ProbeFor, Sized, TagAccess, Named, MshrAccepts;
    CoreIsSized(cfg, s);
    var p := ProbeFor(cfg, s, mf);
    if mf.isWrite {
      if p.status == HIT {
        WriteHitKeepsCore(cfg, s, mf, p.idx, time);
      } else if p.status != RESERVATION_FAIL || cfg.writeAllocate == NO_WRITE_ALLOCATE {
        WriteMissKeepsCore(cfg, s, mf, p.idx, time, p.status);
      }
    } else if p.status == HIT {
      HitIsTaken(cfg, s, mf, p.idx, time);
    } else if p.status != RESERVATION_FAIL {
      ReadMissKeepsCore(cfg, s, mf, p.idx, time);
    }
  }

  lemma DataAccessKeepsCore(cfg: Config, s: CacheState, mf: MemFetch, time: nat)
    requires CoreInv(cfg, s) && Presentable(cfg, s, mf, time) && cfg.writePolicy != READ_ONLY
    ensures DataAccess(cfg, s, mf, time).None? <==> Fails(cfg, s, mf)
    ensures DataAccess(cfg, s, mf, time).Some? ==> CoreInv(cfg, DataAccess(cfg, s, mf, time).value.s)
  {
    hide CoreInv, Dispatch, ProbeFor, Sized, EnqueueHitResponse, Named;
    CoreIsSized(cfg, s);
    var p := ProbeFor(cfg, s, mf);
    DispatchKeepsCore(cfg, s, mf, time);
    if p.status == HIT && !HitQueueFull(cfg, s) && Dispatch(cfg, s, mf, time, p).Some? {
      EnqueueKeepsCore(cfg, Dispatch(cfg, s, mf, time, p).value.s, mf, p.idx);
    }
  }

  lemma ReadOnlyAccessKeepsCore(cfg: Config, s: CacheState, mf: MemFetch, time: nat)
    requires CoreInv(cfg, s) && Presentable(cfg, s, mf, time) && cfg.writePolicy == READ_ONLY
    ensures ReadOnlyAccess(cfg, s, mf, time).Some? && CoreInv(cfg, ReadOnlyAccess(cfg, s, mf, time).value.s)
    ensures !Fails(cfg, s, mf)
  {
    hide CoreInv, ProbeFor, Sized, EnqueueHitResponse, TagAccess, SendRead, MshrAccepts, Unreadable, Named;
    CoreIsSized(cfg, s);
    if Unreadable(cfg, s, mf) {
      FailsOnLazyLinesOnly(cfg, s, mf);
    }
    var p := ProbeFor(cfg, s, mf);
    if p.status == HIT {
      HitIsTaken(cfg, s, mf, p.idx, time);
      if !HitQueueFull(cfg, s) {
        EnqueueKeepsCore(cfg, s.(tags := TagAccess(cfg, s.tags, p.idx, mf, time).value.tags), mf, p.idx);
      }
    } else if p.status != RESERVATION_FAIL && !MissQueueFull(cfg, s, 0) {
      if MshrAccepts(cfg, s, cfg.MshrAddr(mf.addr)) {
        SendKeepsCore(cfg, s, mf, p.idx, time);
      } else {
        SendReadRefuses(cfg, s, mf, p.idx, time);
      }
    }
  }

  /** For every write policy and every allocation policy: access() fails an assertion
      exactly on a read that would refetch a whole line it finds modified and
      unreadable, which only LAZY_FETCH_ON_READ over whole lines can bring about; and
      whatever else is presented keeps the invariant. */
  lemma AccessFailsExactlyWhen(cfg: Config, s: CacheState, mf: MemFetch, time: nat)
    requires CoreInv(cfg, s) && Presentable(cfg, s, mf, time)
    ensures CacheAccess(cfg, s, mf, time).None? <==> Fails(cfg, s, mf)
    ensures Fails(cfg, s, mf) ==> LazyLines(cfg)
    ensures CacheAccess(cfg, s, mf, time).Some? ==> CoreInv(cfg, CacheAccess(cfg, s, mf, time).value.s)
  {
    hide CoreInv, DataAccess, ReadOnlyAccess, Unreadable, MshrAccepts, ProbeFor;
    CoreIsSized(cfg, s);
    if Unreadable(cfg, s, mf) {
      FailsOnLazyLinesOnly(cfg, s, mf);
    }
    if cfg.writePolicy == READ_ONLY {
      ReadOnlyAccessKeepsCore(cfg, s, mf, time);
    } else {
      DataAccessKeepsCore(cfg, s, mf, time);
    }
  }

  // ---- cycle, fill, next_access ----

  lemma CycleKeepsCore(cfg: Config, s: CacheState, memFull: bool)
    requires CoreInv(cfg, s)
    ensures CacheCycle(s, memFull).Some? && CoreInv(cfg, CacheCycle(s, memFull).value)
  {
    hide MshrsOk, AllShaped, PinsExact, PinsNamed, MshrWithinCapacity, Config.MshrAddr, Places, StillWaiting, Expired,
         Waiting;
    TickKeepsTime(s.hitQueue);
    var s' := CacheCycle(s, memFull).value;
    forall mf
      ensures Places(cfg, s', mf) == if mf in s'.pending then 1 else 0
    {
      CycleKeepsPlaces(cfg, s, memFull, mf);
    }
  }

  /** The saved record of an outstanding fetch names a line pinned for it that still
      bears its address, and its MSHR entry is not ready yet. */
  lemma FillFindsItsPin(cfg: Config, s: CacheState, mf: MemFetch)
    requires CoreInv(cfg, s) && mf in s.extra
    ensures var e := s.extra[mf];
      && e.cacheIndex < |s.tags.lines| && e.mshrAddr == cfg.MshrAddr(mf.addr) && WellFormed(cfg, mf)
      && Named(s.tags.lines[e.cacheIndex], cfg.BlockAddr(mf.addr)) && s.tags.lines[e.cacheIndex].IsPinned()
      && e.mshrAddr in s.mshr && e.mshrAddr !in s.ready && |s.ready| + 1 <= |s.mshr|
  {
    hide Config.MshrAddr, Config.BlockAddr, WellFormed, Accounted, AllShaped;
    assert OwnsEntry(cfg, s.mshr, s.ready, mf, s.extra[mf], s.pending);
    UnpinRemoves(s.tags.lines, s.pending, mf);
    SubsetHasRoom(s.ready, s.mshr.Keys, s.extra[mf].mshrAddr);
  }

  lemma FilledKeepsShape(cfg: Config, b: Block, sec: SectorId, bytes: set<nat>)
    requires Shaped(cfg, b) && b.tag == b.blockAddr && (cfg.cacheType == NORMAL ==> sec == 0)
    ensures Shaped(cfg, b.Fill(cfg.cacheType, sec, bytes)) && LineStep(b, b.Fill(cfg.cacheType, sec, bytes))
  {
  }

  lemma FillKeepsCore(cfg: Config, s: CacheState, mf: MemFetch)
    requires CoreInv(cfg, s) && mf in s.extra
    ensures CacheFill(cfg, s, mf).Some? && CoreInv(cfg, CacheFill(cfg, s, mf).value)
  {
    hide Config.MshrAddr, Config.BlockAddr, WellFormed, MshrsOk, PinsExact, PinsNamed, Places, Shaped, LineStep,
         MshrWithinCapacity, Block.Fill;
    FillFindsItsPin(cfg, s, mf);
    var (i, sec) := (s.extra[mf].cacheIndex, cfg.SectorOf(mf));
    var b' := s.tags.lines[i].Fill(cfg.cacheType, sec, mf.bytes);
    assert Shaped(cfg, s.tags.lines[i]);
    FilledKeepsShape(cfg, s.tags.lines[i], sec, mf.bytes);
    LineStepKeepsCore(cfg, s, FillTags(cfg, s.tags, i, sec, mf.bytes), i, b');
    FillKeepsMshrs(cfg, s.mshr, s.ready, s.extra, s.pending, mf);
    SameAccounts(cfg, s, CacheFill(cfg, s, mf).value);
  }

  // the pin of a delivered request is given back
  lemma UnpinKeepsLinesCore(cfg: Config, s: CacheState, mf: MemFetch)
    requires CoreInv(cfg, s) && mf in s.pending
    ensures Unpin(s, mf).Some?
    ensures var s' := Unpin(s, mf).value;
      && s' == s.(tags := s'.tags, pending := s.pending - {mf})
      && Sized(cfg, s'.tags) && AllShaped(cfg, s'.tags.lines)
      && PinsExact(s'.tags.lines, s'.pending) && PinsNamed(cfg, s'.tags.lines, s'.pending)
  {
    hide MshrsOk, Accounted, MshrWithinCapacity, Config.BlockAddr, WellFormed;
    UnpinRemoves(s.tags.lines, s.pending, mf);
    var i := s.pending[mf];
    assert Shaped(cfg, s.tags.lines[i]);
    assert CleanLine(s.tags.lines[i]) ==> CleanLine(s.tags.lines[i].Unpin());
  }

  lemma ReadyQueueKeepsCore(cfg: Config, s: CacheState)
    requires CoreInv(cfg, s) && s.readyQueue != []
    ensures CacheNext(s).Some? && CoreInv(cfg, CacheNext(s).value.s)
    ensures var d := CacheNext(s).value;
      d.mf == s.readyQueue[0] && d.mf in s.pending && d.s.pending == s.pending - {d.mf}
  {
    hide Config.MshrAddr, MshrsOk, AllShaped, PinsExact, PinsNamed, MshrWithinCapacity, Unpin, Places;
    var mf := s.readyQueue[0];
    OnlyPlace(cfg, s, mf);
    UnpinKeepsLinesCore(cfg, s, mf);
    var s1 := s.(readyQueue := s.readyQueue[1..]);
    UnpinIgnoresQueues(s, s1, mf);
    var s' := Unpin(s1, mf).value;
    LessPendingKeepsMshrs(cfg, s.mshr, s.ready, s.extra, s.pending, mf);
    ReadyQueueAccounts(cfg, s, s');
  }

  lemma MshrsKeepCore(cfg: Config, s: CacheState)
    requires CoreInv(cfg, s) && s.readyQueue == [] && s.ready != []
    ensures CacheNext(s).Some? && CoreInv(cfg, CacheNext(s).value.s)
    ensures var d := CacheNext(s).value;
      && s.ready[0] in s.mshr && s.mshr[s.ready[0]] != [] && d.mf == s.mshr[s.ready[0]][0]
      && d.mf in s.pending && d.s.pending == s.pending - {d.mf}
  {
    hide Config.MshrAddr, AllShaped, PinsExact, PinsNamed, MshrWithinCapacity, Unpin, Places, OwnsEntry;
    var a := s.ready[0];
    assert a in s.ready;
    var mf := s.mshr[a][0];
    assert IsMember(cfg, s.mshr[a][0], a, s.pending);
    OnlyPlace(cfg, s, mf);
    HeadOccursOnce(s.mshr[a]);
    hide MshrsOk;
    UnpinKeepsLinesCore(cfg, s, mf);
    var s1 := s.(mshr := PopTable(s.mshr, a), ready := PopReady(s.mshr, s.ready));
    UnpinIgnoresQueues(s, s1, mf);
    var s' := Unpin(s1, mf).value;
    PopKeepsMshrs(cfg, s.mshr, s.ready, s.extra, s.pending, mf);
    PopAccounts(cfg, s, s', a);
    PopKeepsCapacity(cfg, s.mshr, a);
  }

  /** Whatever the policy, a ready response is handed out and its pin given back. */
  lemma NextKeepsCore(cfg: Config, s: CacheState)
    requires CoreInv(cfg, s) && AccessReady(s)
    ensures CacheNext(s).Some? && CoreInv(cfg, CacheNext(s).value.s)
    ensures var d := CacheNext(s).value; d.mf in s.pending && d.s.pending == s.pending - {d.mf}
  {
    hide CoreInv;
    if s.readyQueue != [] {
      ReadyQueueKeepsCore(cfg, s);
    } else {
      MshrsKeepCore(cfg, s);
    }
  }

  lemma InitialCacheCore(cfg: Config)
    requires cfg.Valid()
    ensures CoreInv(cfg, InitialCache(cfg))
  {
    hide Config.MshrAddr;
    InitialLines(cfg);
    var s := InitialCache(cfg);
    assert Waiting(s.hitQueue) == [];
  }
}
