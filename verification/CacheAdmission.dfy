/** What holds of access() for every write policy: a rejected request leaves no
    trace, and the space each handler reserves is enough for what it queues. */
module CacheAdmission {
  import opened CacheTypes
  import opened TagArrays
  import opened CacheModel

  // ---- rejection ----

  lemma SendReadCompletes(cfg: Config, s: CacheState, mf: MemFetch, idx: nat, time: nat)
    requires Sized(cfg, s.tags) && idx < |s.tags.lines|
    requires |s.missQueue| < cfg.missQueueSize
    ensures MshrAccepts(cfg, s, cfg.MshrAddr(mf.addr)) || MshrFull(cfg, s.mshr, cfg.MshrAddr(mf.addr))
    ensures SendRead(cfg, s, mf, idx, time).Some? ==>
              var r := SendRead(cfg, s, mf, idx, time).value;
              r.doMiss == MshrAccepts(cfg, s, cfg.MshrAddr(mf.addr)) && (!r.doMiss ==> r.s == s)
  {
    hide AccessTags, Sized;
  }

  // the probe inside tag_array::access repeats the outer one
  lemma ReprobeAgrees(cfg: Config, s: CacheState, mf: MemFetch, idx: nat, time: nat)
    requires Sized(cfg, s.tags) && idx < |s.tags.lines|
    ensures TagAccess(cfg, s.tags, idx, mf, time).Some? ==>
              TagAccess(cfg, s.tags, idx, mf, time).value.status == ProbeFor(cfg, s, mf).status
  {
    hide ProbeTags;
  }

  lemma WrMissRejects(cfg: Config, s: CacheState, mf: MemFetch, idx: nat, time: nat, probed: RequestStatus)
    requires Sized(cfg, s.tags) && idx < |s.tags.lines| && ProbeFor(cfg, s, mf).status == probed
    requires probed != RESERVATION_FAIL || cfg.writeAllocate == NO_WRITE_ALLOCATE
    requires WrMiss(cfg, s, mf, idx, time, probed).Some?
    requires WrMiss(cfg, s, mf, idx, time, probed).value.status == RESERVATION_FAIL
    ensures WrMiss(cfg, s, mf, idx, time, probed).value.s == s
  {
    hide TagAccess, SendRead, ProbeFor, Sized, WriteInto, LazyWrite;
    ReprobeAgrees(cfg, s, mf, idx, time);
    if !MissQueueFull(cfg, s, 2) {
      var sent := s.(missQueue := s.missQueue + [WritePacket(mf)], nextId := s.nextId + 1);
      SendReadCompletes(cfg, sent, AllocateFetch(cfg, s, mf), idx, time);
    }
    if !MissQueueFull(cfg, s, 1) {
      SendReadCompletes(cfg, s.(nextId := s.nextId + 1), AllocateFetch(cfg, s, mf), idx, time);
    }
  }

  /** For every configuration: RESERVATION_FAIL means that nothing was changed. */
  lemma RejectionHasNoEffect(cfg: Config, s: CacheState, mf: MemFetch, time: nat)
    requires Sized(cfg, s.tags) && CacheAccess(cfg, s, mf, time).Some?
    requires CacheAccess(cfg, s, mf, time).value.status == RESERVATION_FAIL
    ensures CacheAccess(cfg, s, mf, time).value.s == s
  {
    hide TagAccess, SendRead, ProbeFor, Sized, WriteInto, LazyWrite, WrMiss, WrHitWb;
    var p := ProbeFor(cfg, s, mf);
    ReprobeAgrees(cfg, s, mf, p.idx, time);
    if !MissQueueFull(cfg, s, 0) {
      SendReadCompletes(cfg, s, mf, p.idx, time);
    }
    if mf.isWrite && p.status != HIT && (p.status != RESERVATION_FAIL || cfg.writeAllocate == NO_WRITE_ALLOCATE)
       && WrMiss(cfg, s, mf, p.idx, time, p.status).Some?
       && WrMiss(cfg, s, mf, p.idx, time, p.status).value.status == RESERVATION_FAIL {
      WrMissRejects(cfg, s, mf, p.idx, time, p.status);
    }
    WrHitWbHits(cfg, s, mf, p.idx, time);
  }

  lemma WrHitWbHits(cfg: Config, s: CacheState, mf: MemFetch, idx: nat, time: nat)
    requires Sized(cfg, s.tags) && idx < |s.tags.lines|
    ensures WrHitWb(cfg, s, mf, idx, time).Some? ==>
              WrHitWb(cfg, s, mf, idx, time).value.status == HIT
              && WrHitWb(cfg, s, mf, idx, time).value.s == s.(tags := WrHitWb(cfg, s, mf, idx, time).value.s.tags)
  {
  }

  // ---- capacity ----

  ghost predicate WithinCapacity(cfg: Config, s: CacheState) {
    && |s.missQueue| <= cfg.missQueueSize && |s.hitQueue| <= cfg.hitQueueSize
    && MshrWithinCapacity(cfg, s.mshr)
  }

  ghost predicate MshrWithinCapacity(cfg: Config, mshr: MshrTable) {
    |mshr| <= cfg.mshrEntries && forall a :: a in mshr ==> |mshr[a]| <= cfg.mshrMaxMerge
  }

  /** The two assertions of mshr_table::add hold whenever full() said no. */
  lemma AddKeepsCapacity(cfg: Config, mshr: MshrTable, a: nat, mf: MemFetch)
    requires MshrWithinCapacity(cfg, mshr) && cfg.mshrMaxMerge > 0 && !MshrFull(cfg, mshr, a)
    ensures MshrWithinCapacity(cfg, MshrAdd(mshr, a, mf))
  {
    var mshr' := MshrAdd(mshr, a, mf);
    assert mshr'.Keys == mshr.Keys + {a};
    if a in mshr {
      assert mshr'.Keys == mshr.Keys;
    }
    assert |mshr'| == |mshr'.Keys| && |mshr| == |mshr.Keys|;
  }

  lemma SendReadCapacity(cfg: Config, s: CacheState, mf: MemFetch, idx: nat, time: nat)
    requires Sized(cfg, s.tags) && idx < |s.tags.lines| && SendRead(cfg, s, mf, idx, time).Some?
    requires MshrWithinCapacity(cfg, s.mshr)
    ensures var r := SendRead(cfg, s, mf, idx, time).value;
            && MshrWithinCapacity(cfg, r.s.mshr) && r.s.hitQueue == s.hitQueue
            && s.missQueue <= r.s.missQueue && |r.s.missQueue| <= |s.missQueue| + 1
  {
    hide TagAccess;
    if MshrAccepts(cfg, s, cfg.MshrAddr(mf.addr)) {
      AddKeepsCapacity(cfg, s.mshr, cfg.MshrAddr(mf.addr), mf);
    }
  }

  // within capacity, and the miss queue only grew at its back
  ghost predicate QueuesFit(cfg: Config, s: CacheState, s': CacheState) {
    && s.missQueue <= s'.missQueue && |s'.missQueue| <= cfg.missQueueSize && s'.hitQueue == s.hitQueue
    && MshrWithinCapacity(cfg, s'.mshr)
  }

  lemma WriteAllocateFits(cfg: Config, s: CacheState, mf: MemFetch, idx: nat, time: nat, probed: RequestStatus)
    requires Sized(cfg, s.tags) && idx < |s.tags.lines| && WithinCapacity(cfg, s)
    requires WrMissWriteAllocate(cfg, s, mf, idx, time, probed).Some?
    ensures QueuesFit(cfg, s, WrMissWriteAllocate(cfg, s, mf, idx, time, probed).value.s)
  {
    hide SendRead, Sized, MshrWithinCapacity, MshrAccepts, AllocateFetch;
    var sent := s.(missQueue := s.missQueue + [WritePacket(mf)], nextId := s.nextId + 1);
    if SendRead(cfg, sent, AllocateFetch(cfg, s, mf), idx, time).Some? {
      SendReadCapacity(cfg, sent, AllocateFetch(cfg, s, mf), idx, time);
    }
  }

  lemma FetchOnWriteFits(cfg: Config, s: CacheState, mf: MemFetch, idx: nat, time: nat)
    requires Sized(cfg, s.tags) && idx < |s.tags.lines| && WithinCapacity(cfg, s)
    requires WrMissFetchOnWrite(cfg, s, mf, idx, time).Some?
    ensures QueuesFit(cfg, s, WrMissFetchOnWrite(cfg, s, mf, idx, time).value.s)
  {
    hide TagAccess, SendRead, WriteInto, Sized, MshrWithinCapacity, MshrAccepts, AllocateFetch, ReadAfterWritePending;
    var quiet := s.(nextId := s.nextId + 1);
    if SendRead(cfg, quiet, AllocateFetch(cfg, s, mf), idx, time).Some? {
      SendReadCapacity(cfg, quiet, AllocateFetch(cfg, s, mf), idx, time);
    }
  }

  lemma LazyFits(cfg: Config, s: CacheState, mf: MemFetch, idx: nat, time: nat)
    requires Sized(cfg, s.tags) && idx < |s.tags.lines| && WithinCapacity(cfg, s)
    requires WrMissLazy(cfg, s, mf, idx, time).Some?
    ensures QueuesFit(cfg, s, WrMissLazy(cfg, s, mf, idx, time).value.s)
  {
    hide TagAccess, LazyWrite, Sized, MshrWithinCapacity;
  }

  lemma WrMissFits(cfg: Config, s: CacheState, mf: MemFetch, idx: nat, time: nat, probed: RequestStatus)
    requires Sized(cfg, s.tags) && idx < |s.tags.lines| && WithinCapacity(cfg, s)
    requires WrMiss(cfg, s, mf, idx, time, probed).Some?
    ensures QueuesFit(cfg, s, WrMiss(cfg, s, mf, idx, time, probed).value.s)
  {
    hide WrMissWriteAllocate, WrMissFetchOnWrite, WrMissLazy, Sized, MshrWithinCapacity;
    match cfg.writeAllocate {
      case NO_WRITE_ALLOCATE =>
      case WRITE_ALLOCATE => WriteAllocateFits(cfg, s, mf, idx, time, probed);
      case FETCH_ON_WRITE => FetchOnWriteFits(cfg, s, mf, idx, time);
      case LAZY_FETCH_ON_READ => LazyFits(cfg, s, mf, idx, time);
    }
  }

  /** For every configuration the queues and MSHRs stay within their sizes: the
      worst case is reserved before anything is queued. */
  lemma AccessKeepsCapacity(cfg: Config, s: CacheState, mf: MemFetch, time: nat)
    requires Sized(cfg, s.tags) && WithinCapacity(cfg, s) && CacheAccess(cfg, s, mf, time).Some?
    ensures WithinCapacity(cfg, CacheAccess(cfg, s, mf, time).value.s)
  {
    hide TagAccess, SendRead, ProbeFor, Sized, Dispatch, MshrWithinCapacity, HitLatency;
    var p := ProbeFor(cfg, s, mf);
    if cfg.writePolicy != READ_ONLY && Dispatch(cfg, s, mf, time, p).Some? {
      DispatchFits(cfg, s, mf, time, p);
    }
    if SendRead(cfg, s, mf, p.idx, time).Some? {
      SendReadCapacity(cfg, s, mf, p.idx, time);
    }
  }

  lemma DispatchFits(cfg: Config, s: CacheState, mf: MemFetch, time: nat, p: ProbeResult)
    requires Sized(cfg, s.tags) && p.idx < |s.tags.lines| && WithinCapacity(cfg, s)
    requires Dispatch(cfg, s, mf, time, p).Some?
    ensures QueuesFit(cfg, s, Dispatch(cfg, s, mf, time, p).value.s)
  {
    hide TagAccess, SendRead, Sized, WrMiss, WrHitWb, MshrWithinCapacity;
    WrHitWbHits(cfg, s, mf, p.idx, time);
    if SendRead(cfg, s, mf, p.idx, time).Some? {
      SendReadCapacity(cfg, s, mf, p.idx, time);
    }
    if WrMiss(cfg, s, mf, p.idx, time, p.status).Some? {
      WrMissFits(cfg, s, mf, p.idx, time, p.status);
    }
  }

  /** What access() queues for the lower level goes behind what is already there. */
  lemma AccessGrowsQueue(cfg: Config, s: CacheState, mf: MemFetch, time: nat)
    requires Sized(cfg, s.tags) && WithinCapacity(cfg, s) && CacheAccess(cfg, s, mf, time).Some?
    ensures s.missQueue <= CacheAccess(cfg, s, mf, time).value.s.missQueue
  {
    hide TagAccess, SendRead, Sized, Dispatch, MshrWithinCapacity, ProbeFor;
    var p := ProbeFor(cfg, s, mf);
    if Dispatch(cfg, s, mf, time, p).Some? {
      DispatchFits(cfg, s, mf, time, p);
    }
    if SendRead(cfg, s, mf, p.idx, time).Some? {
      SendReadCapacity(cfg, s, mf, p.idx, time);
    }
  }
}
