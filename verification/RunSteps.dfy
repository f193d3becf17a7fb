/** Single steps of a cache whose way search is known, for runs of given events. */
module RunSteps {
  import opened CacheTypes
  import opened Options
  import opened TagArrays
  import opened CacheModel
  import opened CacheTraffic
  import opened CacheDurability
  import opened CacheRuns

  // one step, and then the rest of the run
  lemma RunFirst(cfg: Config, sys: CacheSystem, e: CacheEvent, next: CacheSystem, rest: seq<CacheEvent>)
    requires cfg.lineSize > 0 && Legal(cfg, sys, e) && Step(cfg, sys, e) == Some(next) && LegalRun(cfg, next, rest)
    ensures LegalRun(cfg, sys, [e] + rest) && Run(cfg, sys, [e] + rest) == Run(cfg, next, rest)
  {
    hide Legal, Step;
    assert ([e] + rest)[1..] == rest;
  }

  // the responses owed and the packets queued, from the states before and after a step
  lemma LedgerIs(cfg: Config, sys: CacheSystem, e: CacheEvent)
    requires Step(cfg, sys, e).Some?
    ensures var next := Step(cfg, sys, e).value;
      && (!e.Access? ==> next.queued == sys.queued && next.owed == sys.owed)
      && (e.Access? ==>
            && CacheAccess(cfg, sys.s, e.mf, e.time).Some?
            && next.queued == sys.queued + Added(sys.s, next.s)
            && next.owed == sys.owed
                 + AsSeq(Owed(cfg, sys.s, e.mf, CacheAccess(cfg, sys.s, e.mf, e.time).value.status)))
  {
    hide CacheAccess, CacheNext, CacheFill, CacheCycle, Added, Owed;
  }

  // ---- steps of a cache whose way search is known ----

  // the state after a read miss that allocates way idx, as tags', and queues its fetch
  function Fetching(cfg: Config, s: CacheState, tags': Tags, mf: MemFetch, idx: nat): CacheState
    requires cfg.lineSize > 0 && idx < |tags'.lines|
  {
    var a := cfg.MshrAddr(mf.addr);
    s.(tags := Pin(tags', idx), mshr := MshrAdd(s.mshr, a, mf), pending := s.pending[mf := idx],
       extra := s.extra[mf := Extra(a, idx)], missQueue := s.missQueue + [ReadPacket(mf, a)])
  }

  lemma ReadMissFetches(cfg: Config, s: CacheState, mf: MemFetch, time: nat, tags': Tags, idx: nat)
    requires Sized(cfg, s.tags) && idx < |s.tags.lines| == |tags'.lines|
    requires mf.dataSize <= cfg.AtomSize() && !mf.isWrite && cfg.writePolicy != READ_ONLY
    requires ProbeFor(cfg, s, mf) == ProbeResult(MISS, idx)
    requires TagAccess(cfg, s.tags, idx, mf, time) == Some(AccessResult(tags', MISS, idx, None))
    requires cfg.MshrAddr(mf.addr) !in s.mshr && |s.mshr| < cfg.mshrEntries && 0 < cfg.mshrMaxMerge
    requires |s.missQueue| + 1 < cfg.missQueueSize
    ensures CacheAccess(cfg, s, mf, time) == Some(Outcome(Fetching(cfg, s, tags', mf, idx), MISS))
  {
    hide ProbeFor, TagAccess, Config.MshrAddr;
    var a := cfg.MshrAddr(mf.addr);
    assert |MshrAdd(s.mshr, a, mf)| == |s.mshr| + 1;
  }

  // with no delayed hit, cycle() only hands a packet to the lower level
  lemma QuietCycle(s: CacheState)
    requires s.hitQueue == [] && s.missQueue != []
    ensures CacheCycle(s, false) == Some(s.(missQueue := s.missQueue[1..]))
  {
    assert s.readyQueue + [] == s.readyQueue;
  }

  // a read miss whose address has an MSHR entry joins it
  lemma ReadMissMerges(cfg: Config, s: CacheState, mf: MemFetch, time: nat, tags': Tags, idx: nat)
    requires Sized(cfg, s.tags) && idx < |s.tags.lines| == |tags'.lines|
    requires mf.dataSize <= cfg.AtomSize() && !mf.isWrite && cfg.writePolicy != READ_ONLY
    requires ProbeFor(cfg, s, mf) == ProbeResult(MISS, idx)
    requires TagAccess(cfg, s.tags, idx, mf, time) == Some(AccessResult(tags', MISS, idx, None))
    requires var a := cfg.MshrAddr(mf.addr);
      a in s.mshr && |s.mshr[a]| < cfg.mshrMaxMerge && |s.mshr| <= cfg.mshrEntries
    requires |s.missQueue| + 1 < cfg.missQueueSize
    ensures CacheAccess(cfg, s, mf, time) == Some(Outcome(
      s.(tags := Pin(tags', idx), mshr := MshrAdd(s.mshr, cfg.MshrAddr(mf.addr), mf),
         pending := s.pending[mf := idx]), MISS))
  {
    hide ProbeFor, TagAccess, Config.MshrAddr;
    var a := cfg.MshrAddr(mf.addr);
    assert MshrAdd(s.mshr, a, mf).Keys == s.mshr.Keys;
    assert |MshrAdd(s.mshr, a, mf)| == |s.mshr|;
  }

  // hits of a cache that writes local data back and global data through
  lemma GlobalHitEvicts(cfg: Config, s: CacheState, mf: MemFetch, time: nat, idx: nat)
    requires Sized(cfg, s.tags) && idx < |s.tags.lines| && ProbeFor(cfg, s, mf) == ProbeResult(HIT, idx)
    requires mf.dataSize <= cfg.AtomSize() && mf.isWrite && mf.isGlobal && cfg.writePolicy == LOCAL_WB_GLOBAL_WT
    requires |s.missQueue| < cfg.missQueueSize && |s.hitQueue| < cfg.hitQueueSize
    ensures var evicted := OnLine(s.tags, idx, s.tags.lines[idx].SetStatus(INVALID, cfg.SectorOf(mf)));
      CacheAccess(cfg, s, mf, time) == Some(Outcome(
        EnqueueHitResponse(cfg, s.(tags := evicted, missQueue := s.missQueue + [WritePacket(mf)]), mf, idx), HIT))
  {
    hide ProbeFor, EnqueueHitResponse;
  }

  lemma LocalHitWrites(cfg: Config, s: CacheState, mf: MemFetch, time: nat, idx: nat)
    requires Sized(cfg, s.tags) && idx < |s.tags.lines| && ProbeFor(cfg, s, mf) == ProbeResult(HIT, idx)
    requires mf.dataSize <= cfg.AtomSize() && mf.isWrite && !mf.isGlobal && cfg.writePolicy == LOCAL_WB_GLOBAL_WT
    requires |s.hitQueue| < cfg.hitQueueSize
    ensures var (b, touched) := (s.tags.lines[idx],
                                 s.tags.(lines := s.tags.lines[idx := s.tags.lines[idx].Touch(time)]));
      var written := WriteInto(cfg, touched, idx, mf);
      CacheAccess(cfg, s, mf, time) == Some(Outcome(EnqueueHitResponse(cfg,
        s.(tags := OnLine(written, idx, UpdateReadable(cfg, written.lines[idx], mf))), mf, idx), HIT))
  {
    hide ProbeTags, EnqueueHitResponse, WriteInto, UpdateReadable;
  }

  lemma LastOneExpires(mf: MemFetch)
    ensures StillWaiting([HitEntry(mf, 1)]) == [] && Expired([HitEntry(mf, 1)]) == [mf]
  {
    var q := [HitEntry(mf, 1)];
    assert q[1..] == [] && q[0].remaining == 1;
    assert StillWaiting(q) == [] + StillWaiting([]);
    assert Expired(q) == [mf] + Expired([]);
  }

  // the only delayed hit becomes ready, and a waiting packet leaves
  lemma LastTick(s: CacheState, mf: MemFetch)
    requires s.hitQueue == [HitEntry(mf, 1)]
    ensures CacheCycle(s, false) == Some(s.(hitQueue := [], readyQueue := s.readyQueue + [mf],
      missQueue := if s.missQueue == [] then [] else s.missQueue[1..]))
  {
    LastOneExpires(mf);
  }
}
