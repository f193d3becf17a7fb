/** access(), for a read-only cache and for the covered data-cache policies. */
module CacheOperations {
  import opened CacheTypes
  import opened Options
  import opened TagArrays
  import opened CacheModel
  import opened CacheLines
  import opened CacheAdmission
  import opened CacheInvariant
  import opened CacheSteps

  // what a client may present: a request not already waiting for its response
  ghost predicate Presentable(cfg: Config, s: CacheState, mf: MemFetch, time: nat)
    requires cfg.lineSize > 0
  {
    && mf !in s.pending && mf.id.Client? && WellFormed(cfg, mf) && time < TIME_SENTINEL
    && mf.dataSize <= cfg.AtomSize()
    && (cfg.writePolicy == READ_ONLY ==> !mf.isWrite)
  }

  // ---- lines after a write ----

  lemma WriteHitKeepsInv(cfg: Config, s: CacheState, mf: MemFetch, idx: nat, time: nat)
    requires CacheInv(cfg, s) && Presentable(cfg, s, mf, time) && mf.isWrite
    requires idx == ProbeFor(cfg, s, mf).idx && ProbeFor(cfg, s, mf).status == HIT
    ensures WrHitWb(cfg, s, mf, idx, time).Some?
    ensures var o := WrHitWb(cfg, s, mf, idx, time).value;
            && CacheInv(cfg, o.s) && Holds(o.s.tags.lines[idx], cfg.BlockAddr(mf.addr))
            && |o.s.tags.lines| == |s.tags.lines|
  {
    hide Config.MshrAddr, WellFormed, MshrsOk, SectorsOk, TagAccess, ProbeTags, PinsExact, PinsHold, Clean, Accounted,
         CountModified, DirtyExact, SectorFullyDirty;
    InvIsSized(cfg, s);
    AccessKeepsTags(cfg, s.tags, idx, mf, time);
    var r := TagAccess(cfg, s.tags, idx, mf, time).value;
    WriteKeepsTags(cfg, r.tags, idx, mf);
    var t := WriteInto(cfg, r.tags, idx, mf);
    var b := UpdateReadable(cfg, t.lines[idx], mf);
    UpdateReadableKeepsTags(cfg, t, idx, mf);
    WriteHitIsSafe(cfg, s.tags.lines, idx, r.tags.lines[idx], b, mf, time);
    LineUpdateKeepsInv(cfg, s, OnLine(t, idx, b), idx, b);
  }

  lemma UpdateReadableKeepsTags(cfg: Config, tags: Tags, idx: nat, mf: MemFetch)
    requires TagsOk(cfg, tags) && idx < |tags.lines| && !tags.lines[idx].IsInvalidLine()
    ensures TagsOk(cfg, OnLine(tags, idx, UpdateReadable(cfg, tags.lines[idx], mf)))
  {
    hide CountModified, SectorFullyDirty;
    assert LineOk(cfg, tags.lines[idx], idx);
    TagsAfterSameBlock(cfg, tags, idx, UpdateReadable(cfg, tags.lines[idx], mf), tags.dirty);
  }

  lemma WriteHitIsSafe(cfg: Config, lines: seq<Block>, idx: nat, touched: Block, b: Block, mf: MemFetch, time: nat)
    requires idx < |lines| && touched == lines[idx].Touch(time) && !lines[idx].IsInvalidLine()
    requires HitStatus(lines[idx].sectors[cfg.SectorOf(mf)], true) == HIT
    requires b == UpdateReadable(cfg, touched.SetStatus(MODIFIED, cfg.SectorOf(mf)).SetByteMask(mf.bytes), mf)
    ensures SafeUpdate(lines, idx, b) && SafeSectors(lines, idx, b)
  {
    hide SectorFullyDirty;
    var sec := cfg.SectorOf(mf);
    forall k: SectorId
      ensures SectorStep(lines[idx].sectors[k], b.sectors[k])
    {
    }
  }

  // ---- lazy write misses ----

  lemma LazyFlagsOnly(cfg: Config, b: Block, mf: MemFetch, status: RequestStatus)
    requires b.sectors[cfg.SectorOf(mf)].status == MODIFIED
    ensures var (w, sec) := (LazyFlags(cfg, b, mf, status), cfg.SectorOf(mf));
            && w == b.(sectors := w.sectors, byteMaskOnFill := w.byteMaskOnFill)
            && (forall k: SectorId :: k != sec ==> w.sectors[k] == b.sectors[k])
            && w.sectors[sec].status == MODIFIED && (status == HIT_RESERVED ==> Awaiting(w.sectors[sec]))
  {
  }

  lemma UpdateReadableOnly(cfg: Config, b: Block, mf: MemFetch)
    ensures var (w, sec) := (UpdateReadable(cfg, b, mf), cfg.SectorOf(mf));
            && w == b.(sectors := w.sectors)
            && (forall k: SectorId :: k != sec ==> w.sectors[k] == b.sectors[k])
            && w.sectors[sec] == b.sectors[sec].(readable := w.sectors[sec].readable)
            && (b.sectors[sec].readable ==> w.sectors[sec].readable)
  {
    hide SectorFullyDirty;
  }

  lemma LazyBlockIsWritten(cfg: Config, b: Block, mf: MemFetch, status: RequestStatus)
    ensures var (w, sec) := (LazyBlock(cfg, b, mf, status), cfg.SectorOf(mf));
            && w.tag == b.tag && w.blockAddr == b.blockAddr && w.pins == b.pins
            && w.lastAccess == b.lastAccess && w.allocTime == b.allocTime && w.dirtyBytes == b.dirtyBytes + mf.bytes
            && (forall k: SectorId :: k != sec ==> w.sectors[k] == b.sectors[k])
            && w.sectors[sec].status == MODIFIED && !w.IsInvalidLine() && w.IsModifiedLine()
            && (status == HIT_RESERVED ==> Awaiting(w.sectors[sec]))
  {
    hide UpdateReadable, LazyFlags;
    var written := b.SetStatus(MODIFIED, cfg.SectorOf(mf)).SetByteMask(mf.bytes);
    LazyFlagsOnly(cfg, written, mf, status);
    UpdateReadableOnly(cfg, LazyFlags(cfg, written, mf, status), mf);
  }

  lemma LazyWriteKeepsTags(cfg: Config, tags: Tags, idx: nat, mf: MemFetch, status: RequestStatus)
    requires TagsOk(cfg, tags) && idx < |tags.lines| && !tags.lines[idx].IsInvalidLine() && cfg.cacheType == SECTOR
    ensures TagsOk(cfg, LazyWrite(cfg, tags, idx, mf, status))
  {
    hide CountModified, LazyBlock;
    var b := tags.lines[idx];
    LazyBlockIsWritten(cfg, b, mf, status);
    TagsAfterSameBlock(cfg, tags, idx, LazyBlock(cfg, b, mf, status),
                       if b.IsModifiedLine() then tags.dirty else tags.dirty + 1);
  }

  // the line of a lazy write, before and after the whole step
  lemma LazyIsSafe(cfg: Config, lines: seq<Block>, mf: MemFetch, time: nat, r: AccessResult, tags: Tags)
    requires Sized(cfg, tags) && tags.lines == lines && r.idx < |lines| && mf.isWrite && cfg.cacheType == SECTOR
    requires Accessed(cfg, tags, mf, time, r) && r.status != HIT && r.status != RESERVATION_FAIL
    ensures var w := LazyBlock(cfg, r.tags.lines[r.idx], mf, r.status);
            SafeUpdate(lines, r.idx, w) && SafeSectors(lines, r.idx, w)
  {
    hide LazyBlock, Sized;
    var b := lines[r.idx];
    var w := LazyBlock(cfg, r.tags.lines[r.idx], mf, r.status);
    LazyBlockIsWritten(cfg, r.tags.lines[r.idx], mf, r.status);
    if r.status == MISS {
      assert forall k: SectorId :: w.sectors[k].status != RESERVED;
    } else {
      forall k: SectorId
        ensures SectorStep(b.sectors[k], w.sectors[k])
      {
      }
    }
  }

  lemma LazyMissKeepsInv(cfg: Config, s: CacheState, mf: MemFetch, idx: nat, time: nat)
    requires CacheInv(cfg, s) && Presentable(cfg, s, mf, time) && mf.isWrite && cfg.writeAllocate == LAZY_FETCH_ON_READ
    requires idx == ProbeFor(cfg, s, mf).idx
    requires ProbeFor(cfg, s, mf).status != HIT && ProbeFor(cfg, s, mf).status != RESERVATION_FAIL
    ensures WrMissLazy(cfg, s, mf, idx, time).Some?
    ensures CacheInv(cfg, WrMissLazy(cfg, s, mf, idx, time).value.s)
  {
    hide Config.MshrAddr, WellFormed, MshrsOk, SectorsOk, TagAccess, ProbeTags, PinsExact, PinsHold, Clean, Accounted,
         CountModified, DirtyExact, LazyBlock, SafeUpdate, SafeSectors, LinesOk, TimesBelowSentinel,
         MshrWithinCapacity, CacheInv;
    InvIsSized(cfg, s);
    InvIsCovered(cfg, s);
    if !MissQueueFull(cfg, s, 0) {
      AccessKeepsTags(cfg, s.tags, idx, mf, time);
      var r := TagAccess(cfg, s.tags, idx, mf, time).value;
      LazyIsSafe(cfg, s.tags.lines, mf, time, r, s.tags);
      AccessedIsResident(cfg, s.tags, mf, time, r);
      LazyWriteKeepsTags(cfg, r.tags, r.idx, mf, r.status);
      var t := LazyWrite(cfg, r.tags, r.idx, mf, r.status);
      LineUpdateKeepsInv(cfg, s, t, r.idx, LazyBlock(cfg, r.tags.lines[r.idx], mf, r.status));
      var o := WrMissLazy(cfg, s, mf, idx, time).value;
      assert |o.s.missQueue| <= |s.missQueue| + 1;
      QueueKeepsInv(cfg, s.(tags := t), o.s.missQueue, s.nextId);
      assert o.s == s.(tags := t).(missQueue := o.s.missQueue, nextId := s.nextId);
    }
  }

  lemma InvIsCovered(cfg: Config, s: CacheState)
    requires CacheInv(cfg, s)
    ensures Covered(cfg)
  {
  }

  lemma AccessedIsResident(cfg: Config, tags: Tags, mf: MemFetch, time: nat, r: AccessResult)
    requires Sized(cfg, tags) && r.idx < |tags.lines| && Accessed(cfg, tags, mf, time, r)
             && r.status != RESERVATION_FAIL
    ensures r.tags.lines == tags.lines[r.idx := r.tags.lines[r.idx]]
            && Holds(r.tags.lines[r.idx], cfg.BlockAddr(mf.addr))
  {
  }

  // ---- write-allocate and read misses ----

  // the fetch of a write-allocate miss probes like the write it serves
  lemma FetchProbesLikeWrite(cfg: Config, s: CacheState, mf: MemFetch)
    requires Sized(cfg, s.tags) && ProbeFor(cfg, s, mf).status != HIT
    requires ProbeFor(cfg, s, mf).status != RESERVATION_FAIL && mf.isWrite
    ensures ProbeFor(cfg, s, AllocateFetch(cfg, s, mf)) == ProbeFor(cfg, s, mf)
  {
  }

  lemma WriteBackKeepsInv(cfg: Config, s: CacheState, evicted: Option<Evicted>)
    requires CacheInv(cfg, s) && |s.missQueue| < cfg.missQueueSize
    ensures CacheInv(cfg, SendWriteBack(cfg, s, evicted))
  {
    hide CacheInv;
    QueueKeepsInv(cfg, s, SendWriteBack(cfg, s, evicted).missQueue, s.nextId);
    assert s == s.(nextId := s.nextId);
  }

  lemma ReadMissKeepsInv(cfg: Config, s: CacheState, mf: MemFetch, idx: nat, time: nat)
    requires CacheInv(cfg, s) && Presentable(cfg, s, mf, time) && !mf.isWrite
    requires idx == ProbeFor(cfg, s, mf).idx
    requires ProbeFor(cfg, s, mf).status != HIT && ProbeFor(cfg, s, mf).status != RESERVATION_FAIL
    ensures RdMiss(cfg, s, mf, idx, time).Some? && CacheInv(cfg, RdMiss(cfg, s, mf, idx, time).value.s)
  {
    hide SendRead, ProbeFor, Sized, CacheInv, MshrAccepts, SendWriteBack;
    InvIsSized(cfg, s);
    if !MissQueueFull(cfg, s, 1) {
      SendReadCompletes(cfg, s, mf, idx, time);
      if MshrAccepts(cfg, s, cfg.MshrAddr(mf.addr)) {
        SendReadKeepsInv(cfg, s, mf, idx, time);
        InvFitsMshrs(cfg, s);
        SendReadCapacity(cfg, s, mf, idx, time);
        var r := SendRead(cfg, s, mf, idx, time).value;
        WriteBackKeepsInv(cfg, r.s, r.evicted);
      } else {
        SendReadRefuses(cfg, s, mf, idx, time);
      }
    }
  }

  lemma InvFitsMshrs(cfg: Config, s: CacheState)
    requires CacheInv(cfg, s)
    ensures MshrWithinCapacity(cfg, s.mshr)
  {
  }

  lemma SendReadRefuses(cfg: Config, s: CacheState, mf: MemFetch, idx: nat, time: nat)
    requires Sized(cfg, s.tags) && idx < |s.tags.lines| && |s.missQueue| < cfg.missQueueSize
    requires !MshrAccepts(cfg, s, cfg.MshrAddr(mf.addr))
    ensures SendRead(cfg, s, mf, idx, time) == Some(ReadSent(s, false, None))
  {
  }

  lemma WriteAllocateKeepsInv(cfg: Config, s: CacheState, mf: MemFetch, idx: nat, time: nat, probed: RequestStatus)
    requires CacheInv(cfg, s) && Presentable(cfg, s, mf, time) && mf.isWrite
    requires ProbeResult(probed, idx) == ProbeFor(cfg, s, mf) && probed != HIT && probed != RESERVATION_FAIL
    ensures WrMissWriteAllocate(cfg, s, mf, idx, time, probed).Some?
    ensures CacheInv(cfg, WrMissWriteAllocate(cfg, s, mf, idx, time, probed).value.s)
  {
    hide SendRead, ProbeFor, Sized, CacheInv, SendWriteBack, MshrFull;
    InvIsSized(cfg, s);
    if !MissQueueFull(cfg, s, 2) && MshrAccepts(cfg, s, cfg.MshrAddr(mf.addr)) {
      var sent := s.(missQueue := s.missQueue + [WritePacket(mf)], nextId := s.nextId + 1);
      var fetch := AllocateFetch(cfg, s, mf);
      QueueKeepsInv(cfg, s, sent.missQueue, sent.nextId);
      FetchProbesLikeWrite(cfg, s, mf);
      SameTagsSameProbe(cfg, s, sent, fetch);
      FreshIdIsNotPending(cfg, s, fetch);
      SameMshrsSameRoom(cfg, s, sent, cfg.MshrAddr(mf.addr));
      SendReadKeepsInv(cfg, sent, fetch, idx, time);
      InvFitsMshrs(cfg, sent);
      SendReadCapacity(cfg, sent, fetch, idx, time);
      var r := SendRead(cfg, sent, fetch, idx, time).value;
      WriteBackKeepsInv(cfg, r.s, r.evicted);
    }
  }

  lemma SameTagsSameProbe(cfg: Config, s: CacheState, s': CacheState, mf: MemFetch)
    requires Sized(cfg, s.tags) && s'.tags == s.tags
    ensures ProbeFor(cfg, s', mf) == ProbeFor(cfg, s, mf)
  {
  }

  lemma SameMshrsSameRoom(cfg: Config, s: CacheState, s': CacheState, a: nat)
    requires s'.mshr == s.mshr && |s'.missQueue| < cfg.missQueueSize && MshrAccepts(cfg, s, a)
    ensures MshrAccepts(cfg, s', a)
  {
  }

  lemma FreshIdIsNotPending(cfg: Config, s: CacheState, fetch: MemFetch)
    requires IdsUsed(s.pending, s.nextId) && fetch.id == Allocated(s.nextId)
    ensures fetch !in s.pending
  {
  }

  lemma NoAllocateKeepsInv(cfg: Config, s: CacheState, mf: MemFetch)
    requires CacheInv(cfg, s)
    ensures WrMissNoAllocate(cfg, s, mf).Some? && CacheInv(cfg, WrMissNoAllocate(cfg, s, mf).value.s)
  {
    hide CacheInv;
    if !MissQueueFull(cfg, s, 0) {
      QueueKeepsInv(cfg, s, s.missQueue + [WritePacket(mf)], s.nextId);
    }
    assert s == s.(nextId := s.nextId);
  }

  lemma WriteMissKeepsInv(cfg: Config, s: CacheState, mf: MemFetch, idx: nat, time: nat, probed: RequestStatus)
    requires CacheInv(cfg, s) && Presentable(cfg, s, mf, time) && mf.isWrite
    requires ProbeResult(probed, idx) == ProbeFor(cfg, s, mf) && probed != HIT
    requires probed != RESERVATION_FAIL || cfg.writeAllocate == NO_WRITE_ALLOCATE
    ensures WrMiss(cfg, s, mf, idx, time, probed).Some?
    ensures CacheInv(cfg, WrMiss(cfg, s, mf, idx, time, probed).value.s)
  {
    hide CacheInv, WrMissWriteAllocate, WrMissLazy, WrMissNoAllocate, WrMissFetchOnWrite, ProbeFor, Sized;
    InvIsSized(cfg, s);
    InvIsCovered(cfg, s);
    match cfg.writeAllocate {
      case NO_WRITE_ALLOCATE => NoAllocateKeepsInv(cfg, s, mf);
      case WRITE_ALLOCATE => WriteAllocateKeepsInv(cfg, s, mf, idx, time, probed);
      case LAZY_FETCH_ON_READ => LazyMissKeepsInv(cfg, s, mf, idx, time);
      case FETCH_ON_WRITE =>
    }
  }

  // ---- hits ----

  lemma ReadHitKeepsInv(cfg: Config, s: CacheState, mf: MemFetch, idx: nat, time: nat)
    requires CacheInv(cfg, s) && Presentable(cfg, s, mf, time)
    requires ProbeFor(cfg, s, mf) == ProbeResult(HIT, idx)
    ensures TagAccess(cfg, s.tags, idx, mf, time).Some?
    ensures var r := TagAccess(cfg, s.tags, idx, mf, time).value;
            && r.status == HIT && r.idx == idx && r.evicted.None?
            && CacheInv(cfg, s.(tags := r.tags)) && |r.tags.lines| == |s.tags.lines|
            && Holds(r.tags.lines[idx], cfg.BlockAddr(mf.addr))
  {
    hide CacheInv, TagAccess, ProbeTags, TagsOk;
    InvIsSized(cfg, s);
    AccessKeepsTags(cfg, s.tags, idx, mf, time);
    TouchKeepsInv(cfg, s, mf, time, TagAccess(cfg, s.tags, idx, mf, time).value);
  }

  lemma WriteThroughHitKeepsInv(cfg: Config, s: CacheState, mf: MemFetch, idx: nat, time: nat)
    requires CacheInv(cfg, s) && Presentable(cfg, s, mf, time) && mf.isWrite
    requires ProbeFor(cfg, s, mf) == ProbeResult(HIT, idx)
    ensures WrHit(cfg, s, mf, idx, time).Some?
    ensures var o := WrHit(cfg, s, mf, idx, time).value;
            && CacheInv(cfg, o.s) && |o.s.tags.lines| == |s.tags.lines|
            && (o.status == HIT || o.status == RESERVATION_FAIL)
            && (o.status == HIT ==> Holds(o.s.tags.lines[idx], cfg.BlockAddr(mf.addr)))
            && o.s.hitQueue == s.hitQueue && o.s.pending == s.pending
  {
    hide CacheInv, WrHitWb, ProbeFor, Sized;
    InvIsSized(cfg, s);
    InvIsCovered(cfg, s);
    WriteHitKeepsInv(cfg, s, mf, idx, time);
    WrHitWbHits(cfg, s, mf, idx, time);
    var w := WrHitWb(cfg, s, mf, idx, time).value.s;
    if !MissQueueFull(cfg, s, 0) {
      QueueKeepsInv(cfg, w, s.missQueue + [WritePacket(mf)], w.nextId);
    }
    assert w == w.(nextId := w.nextId);
  }

  // ---- access ----

  lemma DispatchKeepsInv(cfg: Config, s: CacheState, mf: MemFetch, time: nat)
    requires CacheInv(cfg, s) && Presentable(cfg, s, mf, time) && cfg.writePolicy != READ_ONLY
    ensures var p := ProbeFor(cfg, s, mf);
            && Dispatch(cfg, s, mf, time, p).Some?
            && var o := Dispatch(cfg, s, mf, time, p).value;
               && CacheInv(cfg, o.s)
               && (p.status == HIT && o.status == HIT ==>
                     && |o.s.tags.lines| == |s.tags.lines| && Holds(o.s.tags.lines[p.idx], cfg.BlockAddr(mf.addr))
                     && o.s.hitQueue == s.hitQueue && o.s.pending == s.pending)
  {
    hide CacheInv, WrHit, WrMiss, RdMiss, ProbeFor, Sized, TagAccess;
    InvIsSized(cfg, s);
    var p := ProbeFor(cfg, s, mf);
    if mf.isWrite {
      if p.status == HIT {
        WriteThroughHitKeepsInv(cfg, s, mf, p.idx, time);
      } else if p.status != RESERVATION_FAIL || cfg.writeAllocate == NO_WRITE_ALLOCATE {
        WriteMissKeepsInv(cfg, s, mf, p.idx, time, p.status);
      }
    } else if p.status == HIT {
      ReadHitKeepsInv(cfg, s, mf, p.idx, time);
    } else if p.status != RESERVATION_FAIL {
      ReadMissKeepsInv(cfg, s, mf, p.idx, time);
    }
  }

  lemma DataAccessKeepsInv(cfg: Config, s: CacheState, mf: MemFetch, time: nat)
    requires CacheInv(cfg, s) && Presentable(cfg, s, mf, time) && cfg.writePolicy != READ_ONLY
    ensures DataAccess(cfg, s, mf, time).Some? && CacheInv(cfg, DataAccess(cfg, s, mf, time).value.s)
  {
    hide CacheInv, Dispatch, ProbeFor, Sized, EnqueueHitResponse;
    InvIsSized(cfg, s);
    var p := ProbeFor(cfg, s, mf);
    DispatchKeepsInv(cfg, s, mf, time);
    var o := Dispatch(cfg, s, mf, time, p).value;
    if p.status == HIT && !HitQueueFull(cfg, s) && o.status == HIT {
      EnqueueKeepsInv(cfg, o.s, mf, p.idx);
    }
  }

  lemma ReadOnlyAccessKeepsInv(cfg: Config, s: CacheState, mf: MemFetch, time: nat)
    requires CacheInv(cfg, s) && Presentable(cfg, s, mf, time) && cfg.writePolicy == READ_ONLY
    ensures ReadOnlyAccess(cfg, s, mf, time).Some? && CacheInv(cfg, ReadOnlyAccess(cfg, s, mf, time).value.s)
  {
    hide CacheInv, ProbeFor, Sized, EnqueueHitResponse, TagAccess, SendRead, MshrAccepts;
    InvIsSized(cfg, s);
    var p := ProbeFor(cfg, s, mf);
    if p.status == HIT {
      ReadHitKeepsInv(cfg, s, mf, p.idx, time);
      if !HitQueueFull(cfg, s) {
        var r := TagAccess(cfg, s.tags, p.idx, mf, time).value;
        EnqueueKeepsInv(cfg, s.(tags := r.tags), mf, p.idx);
      }
    } else if p.status != RESERVATION_FAIL && !MissQueueFull(cfg, s, 0) {
      if MshrAccepts(cfg, s, cfg.MshrAddr(mf.addr)) {
        SendReadKeepsInv(cfg, s, mf, p.idx, time);
      } else {
        SendReadRefuses(cfg, s, mf, p.idx, time);
      }
    }
  }

  /** No assertion fails in access(), and the invariant holds afterwards. */
  lemma AccessKeepsInv(cfg: Config, s: CacheState, mf: MemFetch, time: nat)
    requires CacheInv(cfg, s) && Presentable(cfg, s, mf, time)
    ensures CacheAccess(cfg, s, mf, time).Some? && CacheInv(cfg, CacheAccess(cfg, s, mf, time).value.s)
  {
    hide CacheInv, DataAccess, ReadOnlyAccess;
    InvIsSized(cfg, s);
    if cfg.writePolicy == READ_ONLY {
      ReadOnlyAccessKeepsInv(cfg, s, mf, time);
    } else {
      DataAccessKeepsInv(cfg, s, mf, time);
    }
  }
}
