/** access() in one place: whichever handler runs, an accepted request replaces the one
    line that the probe named and appends at most three packets to the miss queue. */
module CacheEffects {
  import opened CacheTypes
  import opened Options
  import opened TagArrays
  import opened CacheModel
  import opened CacheOperations

  // ---- the line ----

  // a store that fills its sector needs no fetch
  predicate IsFull(cfg: Config, mf: MemFetch) { |mf.bytes| == cfg.AtomSize() }

  // a write hit that invalidates its sector
  predicate EvictsOnHit(cfg: Config, mf: MemFetch) {
    cfg.writePolicy == WRITE_EVICT || (cfg.writePolicy == LOCAL_WB_GLOBAL_WT && mf.isGlobal)
  }

  // what tag_array::access leaves where the probe pointed
  function Took(cfg: Config, b: Block, status: RequestStatus, mf: MemFetch, time: nat): Block
    requires cfg.lineSize > 0
  {
    var (block, sec) := (cfg.BlockAddr(mf.addr), cfg.SectorOf(mf));
    match status
    case HIT | HIT_RESERVED => b.Touch(time)
    case SECTOR_MISS => b.AllocateSector(time, sec)
    case MISS => b.Allocate(cfg.cacheType, block, block, time, sec)
    case RESERVATION_FAIL => b
  }

  function Written(cfg: Config, b: Block, mf: MemFetch): Block {
    b.SetStatus(MODIFIED, cfg.SectorOf(mf)).SetByteMask(mf.bytes)
  }

  function WriteHitLine(cfg: Config, b: Block, mf: MemFetch, time: nat): Block {
    if EvictsOnHit(cfg, mf) then b.SetStatus(INVALID, cfg.SectorOf(mf))
    else UpdateReadable(cfg, Written(cfg, b.Touch(time), mf), mf)
  }

  function WriteMissLine(cfg: Config, b: Block, mf: MemFetch, status: RequestStatus, time: nat): Block
    requires cfg.lineSize > 0
  {
    var t := Took(cfg, b, status, mf, time);
    match cfg.writeAllocate
    case NO_WRITE_ALLOCATE => b
    case WRITE_ALLOCATE => t.Pin()
    case FETCH_ON_WRITE =>
      if IsFull(cfg, mf) then Written(cfg, t, mf)
      else t.Pin().SetModifiedOnFill(true, cfg.SectorOf(mf)).SetByteMaskOnFill(true)
    case LAZY_FETCH_ON_READ => LazyBlock(cfg, t, mf, status)
  }

  function AccessedLine(cfg: Config, b: Block, mf: MemFetch, status: RequestStatus, time: nat): Block
    requires cfg.lineSize > 0
  {
    if !mf.isWrite then Took(cfg, b, status, mf, time).Pin()
    else if status == HIT then WriteHitLine(cfg, b, mf, time).Pin()
    else WriteMissLine(cfg, b, mf, status, time)
  }

  // ---- the packets ----

  // the write itself goes down
  predicate SendsWrite(cfg: Config, mf: MemFetch, status: RequestStatus) {
    mf.isWrite &&
    if status == HIT then cfg.writePolicy == WRITE_THROUGH || EvictsOnHit(cfg, mf)
    else match cfg.writeAllocate
         case NO_WRITE_ALLOCATE => true
         case WRITE_ALLOCATE => true
         case FETCH_ON_WRITE => false
         case LAZY_FETCH_ON_READ => cfg.writePolicy == WRITE_THROUGH
  }

  // the request allocates a line if it misses
  predicate Allocates(cfg: Config, mf: MemFetch) { !mf.isWrite || cfg.writeAllocate != NO_WRITE_ALLOCATE }

  // the fetch that goes down unless its address has an MSHR entry
  function Fetched(cfg: Config, s: CacheState, mf: MemFetch, status: RequestStatus): Option<MemFetch> {
    if status == HIT then None
    else if !mf.isWrite then Some(mf)
    else if cfg.writeAllocate == WRITE_ALLOCATE then Some(AllocateFetch(cfg, s, mf))
    else if cfg.writeAllocate == FETCH_ON_WRITE && !IsFull(cfg, mf) then Some(AllocateFetch(cfg, s, mf))
    else None
  }

  function WritePackets(cfg: Config, mf: MemFetch, status: RequestStatus): seq<Packet> {
    if SendsWrite(cfg, mf, status) then [WritePacket(mf)] else []
  }

  function FetchPackets(cfg: Config, s: CacheState, mf: MemFetch, status: RequestStatus): seq<Packet>
    requires cfg.lineSize > 0
  {
    var a := cfg.MshrAddr(mf.addr);
    match Fetched(cfg, s, mf, status)
    case Some(f) => if a in s.mshr then [] else [ReadPacket(f, a)]
    case None => []
  }

  function WriteBackPackets(cfg: Config, b: Block, mf: MemFetch, status: RequestStatus): seq<Packet> {
    if status == MISS && Allocates(cfg, mf) && b.IsModifiedLine() && cfg.writePolicy != WRITE_THROUGH
    then [WriteBackPacket(b.EvictedInfo(cfg.cacheType))] else []
  }

  function AccessPackets(cfg: Config, s: CacheState, mf: MemFetch, p: ProbeResult): seq<Packet>
    requires cfg.lineSize > 0 && p.idx < |s.tags.lines|
  {
    WritePackets(cfg, mf, p.status) + FetchPackets(cfg, s, mf, p.status)
    + WriteBackPackets(cfg, s.tags.lines[p.idx], mf, p.status)
  }

  // the fetch recorded as outstanding, with the line it will fill
  function Recorded(cfg: Config, s: CacheState, mf: MemFetch, p: ProbeResult): map<MemFetch, Extra>
    requires cfg.lineSize > 0
  {
    var a := cfg.MshrAddr(mf.addr);
    match Fetched(cfg, s, mf, p.status)
    case Some(f) => if a in s.mshr then s.extra else s.extra[f := Extra(a, p.idx)]
    case None => s.extra
  }

  // ---- the handlers do this ----

  ghost predicate Effect(s: CacheState, s': CacheState, i: nat, b: Block, q: seq<Packet>, extra: map<MemFetch, Extra>)
    requires i < |s.tags.lines|
  {
    s'.tags.lines == s.tags.lines[i := b] && s'.missQueue == s.missQueue + q && s'.extra == extra
  }

  lemma TagAccessTakes(cfg: Config, tags: Tags, idx: nat, mf: MemFetch, time: nat)
    requires Sized(cfg, tags) && idx < |tags.lines| && TagAccess(cfg, tags, idx, mf, time).Some?
    ensures var p := ProbeTags(cfg, tags, cfg.BlockAddr(mf.addr), cfg.SectorOf(mf), mf.isWrite);
      var (r, b) := (TagAccess(cfg, tags, idx, mf, time).value, tags.lines[p.idx]);
      && r.status == p.status && |r.tags.lines| == |tags.lines|
      && (p.status != RESERVATION_FAIL ==>
            r.idx == p.idx && r.tags.lines == tags.lines[p.idx := Took(cfg, b, p.status, mf, time)])
      && r.evicted == if p.status == MISS && b.IsModifiedLine() then Some(b.EvictedInfo(cfg.cacheType)) else None
  {
    hide ProbeTags;
    BlockAddrTwice(cfg, mf.addr);
  }

  lemma SendReadEffect(cfg: Config, s: CacheState, mf: MemFetch, idx: nat, time: nat)
    requires Sized(cfg, s.tags) && idx < |s.tags.lines| && SendRead(cfg, s, mf, idx, time).Some?
    requires SendRead(cfg, s, mf, idx, time).value.doMiss
    requires ProbeFor(cfg, s, mf).idx == idx && ProbeFor(cfg, s, mf).status != RESERVATION_FAIL
    ensures var (r, b, status) := (SendRead(cfg, s, mf, idx, time).value, s.tags.lines[idx],
                                   ProbeFor(cfg, s, mf).status);
      var a := cfg.MshrAddr(mf.addr);
      && Effect(s, r.s, idx, Took(cfg, b, status, mf, time).Pin(), if a in s.mshr then [] else [ReadPacket(mf, a)],
                if a in s.mshr then s.extra else s.extra[mf := Extra(a, idx)])
      && r.evicted == if status == MISS && b.IsModifiedLine() then Some(b.EvictedInfo(cfg.cacheType)) else None
  {
    hide TagAccess, ProbeTags, Took, Block.Pin, MshrAdd, MshrAccepts, MshrFull, Config.MshrAddr;
    TagAccessTakes(cfg, s.tags, idx, mf, time);
    var t := Took(cfg, s.tags.lines[idx], ProbeFor(cfg, s, mf).status, mf, time);
    assert s.tags.lines[idx := t][idx := t.Pin()] == s.tags.lines[idx := t.Pin()];
    assert s.missQueue + [] == s.missQueue;
  }

  // the write-back of what was evicted goes last
  lemma WriteBackEffect(cfg: Config, s: CacheState, s1: CacheState, i: nat, b: Block, q: seq<Packet>,
                        extra: map<MemFetch, Extra>, evicted: Option<Evicted>)
    requires i < |s.tags.lines| && Effect(s, s1, i, b, q, extra)
    ensures Effect(s, SendWriteBack(cfg, s1, evicted), i, b,
                   q + (if evicted.Some? && cfg.writePolicy != WRITE_THROUGH then [WriteBackPacket(evicted.value)]
                        else []), extra)
  {
    assert q + [] == q;
    if evicted.Some? {
      assert s.missQueue + q + [WriteBackPacket(evicted.value)] == s.missQueue + (q + [WriteBackPacket(evicted.value)]);
    }
  }

  lemma ReadMissEffect(cfg: Config, s: CacheState, mf: MemFetch, time: nat, p: ProbeResult)
    requires Sized(cfg, s.tags) && p == ProbeFor(cfg, s, mf) && p.status != HIT && p.status != RESERVATION_FAIL
    requires !mf.isWrite && RdMiss(cfg, s, mf, p.idx, time).Some?
    requires RdMiss(cfg, s, mf, p.idx, time).value.status != RESERVATION_FAIL
    ensures RdMiss(cfg, s, mf, p.idx, time).value.status == MISS
    ensures Effect(s, RdMiss(cfg, s, mf, p.idx, time).value.s, p.idx,
                   AccessedLine(cfg, s.tags.lines[p.idx], mf, p.status, time), AccessPackets(cfg, s, mf, p),
                   Recorded(cfg, s, mf, p))
  {
    hide SendRead, ProbeFor, Effect, Took, SendWriteBack, Config.MshrAddr, Block.Pin;
    SendReadEffect(cfg, s, mf, p.idx, time);
    var r := SendRead(cfg, s, mf, p.idx, time).value;
    var (w, q) := (AccessedLine(cfg, s.tags.lines[p.idx], mf, p.status, time), FetchPackets(cfg, s, mf, p.status));
    WriteBackEffect(cfg, s, r.s, p.idx, w, q, Recorded(cfg, s, mf, p), r.evicted);
    assert [] + q == q;
  }

  // a fetch sent for a write
  lemma FetchEffect(cfg: Config, s: CacheState, sent: CacheState, mf: MemFetch, time: nat, p: ProbeResult)
    requires Sized(cfg, s.tags) && p == ProbeFor(cfg, s, mf) && p.status != HIT && p.status != RESERVATION_FAIL
    requires mf.isWrite && sent == s.(missQueue := sent.missQueue, nextId := sent.nextId)
    requires SendRead(cfg, sent, AllocateFetch(cfg, s, mf), p.idx, time).Some?
    requires SendRead(cfg, sent, AllocateFetch(cfg, s, mf), p.idx, time).value.doMiss
    ensures var (r, b) := (SendRead(cfg, sent, AllocateFetch(cfg, s, mf), p.idx, time).value, s.tags.lines[p.idx]);
      var (t, a) := (Took(cfg, b, p.status, mf, time), cfg.MshrAddr(mf.addr));
      && Effect(sent, r.s, p.idx, t.Pin(), if a in s.mshr then [] else [ReadPacket(AllocateFetch(cfg, s, mf), a)],
                if a in s.mshr then s.extra else s.extra[AllocateFetch(cfg, s, mf) := Extra(a, p.idx)])
      && r.evicted == if p.status == MISS && b.IsModifiedLine() then Some(b.EvictedInfo(cfg.cacheType)) else None
  {
    hide SendRead, ProbeFor, Sized, Effect, Config.MshrAddr, Config.BlockAddr;
    FetchProbesLikeWrite(cfg, s, mf);
    SameTagsSameProbe(cfg, s, sent, AllocateFetch(cfg, s, mf));
    SendReadEffect(cfg, sent, AllocateFetch(cfg, s, mf), p.idx, time);
  }

  lemma WriteAllocateEffect(cfg: Config, s: CacheState, mf: MemFetch, time: nat, p: ProbeResult)
    requires Sized(cfg, s.tags) && p == ProbeFor(cfg, s, mf) && p.status != HIT && p.status != RESERVATION_FAIL
    requires mf.isWrite && cfg.writeAllocate == WRITE_ALLOCATE
    requires WrMissWriteAllocate(cfg, s, mf, p.idx, time, p.status).Some?
    requires WrMissWriteAllocate(cfg, s, mf, p.idx, time, p.status).value.status != RESERVATION_FAIL
    ensures WrMissWriteAllocate(cfg, s, mf, p.idx, time, p.status).value.status == MISS
    ensures Effect(s, WrMissWriteAllocate(cfg, s, mf, p.idx, time, p.status).value.s, p.idx,
                   AccessedLine(cfg, s.tags.lines[p.idx], mf, p.status, time), AccessPackets(cfg, s, mf, p),
                   Recorded(cfg, s, mf, p))
  {
    hide SendRead, ProbeFor, Took, SendWriteBack, Config.MshrAddr, Block.Pin, AllocateFetch, MshrAccepts;
    var sent := s.(missQueue := s.missQueue + [WritePacket(mf)], nextId := s.nextId + 1);
    FetchEffect(cfg, s, sent, mf, time, p);
    var r := SendRead(cfg, sent, AllocateFetch(cfg, s, mf), p.idx, time).value;
    var q := FetchPackets(cfg, s, mf, p.status);
    assert s.missQueue + [WritePacket(mf)] + q == s.missQueue + ([WritePacket(mf)] + q);
    var w := AccessedLine(cfg, s.tags.lines[p.idx], mf, p.status, time);
    WriteBackEffect(cfg, s, r.s, p.idx, w, [WritePacket(mf)] + q, Recorded(cfg, s, mf, p), r.evicted);
  }

  lemma FetchAndMarkEffect(cfg: Config, s: CacheState, mf: MemFetch, time: nat, p: ProbeResult)
    requires Sized(cfg, s.tags) && p == ProbeFor(cfg, s, mf) && p.status != HIT && p.status != RESERVATION_FAIL
    requires mf.isWrite && cfg.writeAllocate == FETCH_ON_WRITE && !IsFull(cfg, mf)
    requires FetchAndMark(cfg, s, mf, p.idx, time).Some?
    requires FetchAndMark(cfg, s, mf, p.idx, time).value.status != RESERVATION_FAIL
    ensures FetchAndMark(cfg, s, mf, p.idx, time).value.status == MISS
    ensures Effect(s, FetchAndMark(cfg, s, mf, p.idx, time).value.s, p.idx,
                   AccessedLine(cfg, s.tags.lines[p.idx], mf, p.status, time), AccessPackets(cfg, s, mf, p),
                   Recorded(cfg, s, mf, p))
  {
    hide SendRead, ProbeFor, Took, SendWriteBack, Config.MshrAddr, Block.Pin, AllocateFetch, Block.SetModifiedOnFill,
         Block.SetByteMaskOnFill;
    var sent := s.(nextId := s.nextId + 1);
    FetchEffect(cfg, s, sent, mf, time, p);
    var r := SendRead(cfg, sent, AllocateFetch(cfg, s, mf), p.idx, time).value;
    var (t, q) := (Took(cfg, s.tags.lines[p.idx], p.status, mf, time).Pin(), FetchPackets(cfg, s, mf, p.status));
    var w := t.SetModifiedOnFill(true, cfg.SectorOf(mf)).SetByteMaskOnFill(true);
    assert s.tags.lines[p.idx := t][p.idx := w] == s.tags.lines[p.idx := w];
    var s1 := r.s.(tags := OnLine(r.s.tags, p.idx, w));
    WriteBackEffect(cfg, s, s1, p.idx, w, q, Recorded(cfg, s, mf, p), r.evicted);
    assert [] + q == q;
  }

  lemma FullStoreEffect(cfg: Config, s: CacheState, mf: MemFetch, time: nat, p: ProbeResult)
    requires Sized(cfg, s.tags) && p == ProbeFor(cfg, s, mf) && p.status != HIT && p.status != RESERVATION_FAIL
    requires mf.isWrite && cfg.writeAllocate == FETCH_ON_WRITE && IsFull(cfg, mf)
    requires WrMissFetchOnWrite(cfg, s, mf, p.idx, time).Some?
    requires WrMissFetchOnWrite(cfg, s, mf, p.idx, time).value.status != RESERVATION_FAIL
    ensures WrMissFetchOnWrite(cfg, s, mf, p.idx, time).value.status == MISS
    ensures Effect(s, WrMissFetchOnWrite(cfg, s, mf, p.idx, time).value.s, p.idx,
                   AccessedLine(cfg, s.tags.lines[p.idx], mf, p.status, time), AccessPackets(cfg, s, mf, p),
                   Recorded(cfg, s, mf, p))
  {
    hide TagAccess, ProbeTags, Took, SendWriteBack, Config.BlockAddr, Block.SetStatus, Block.SetByteMask;
    TagAccessTakes(cfg, s.tags, p.idx, mf, time);
    var r := TagAccess(cfg, s.tags, p.idx, mf, time).value;
    var t := Took(cfg, s.tags.lines[p.idx], p.status, mf, time);
    var w := Written(cfg, t, mf);
    assert s.tags.lines[p.idx := t][p.idx := w] == s.tags.lines[p.idx := w];
    assert s.missQueue + [] == s.missQueue;
    WriteBackEffect(cfg, s, s.(tags := WriteInto(cfg, r.tags, r.idx, mf)), p.idx, w, [], Recorded(cfg, s, mf, p),
                    r.evicted);
  }

  lemma LazyEffect(cfg: Config, s: CacheState, mf: MemFetch, time: nat, p: ProbeResult)
    requires Sized(cfg, s.tags) && p == ProbeFor(cfg, s, mf) && p.status != HIT && p.status != RESERVATION_FAIL
    requires mf.isWrite && cfg.writeAllocate == LAZY_FETCH_ON_READ && WrMissLazy(cfg, s, mf, p.idx, time).Some?
    requires WrMissLazy(cfg, s, mf, p.idx, time).value.status != RESERVATION_FAIL
    ensures WrMissLazy(cfg, s, mf, p.idx, time).value.status == MISS
    ensures Effect(s, WrMissLazy(cfg, s, mf, p.idx, time).value.s, p.idx,
                   AccessedLine(cfg, s.tags.lines[p.idx], mf, p.status, time), AccessPackets(cfg, s, mf, p),
                   Recorded(cfg, s, mf, p))
  {
    hide TagAccess, ProbeTags, Took, SendWriteBack, Config.BlockAddr, LazyBlock;
    TagAccessTakes(cfg, s.tags, p.idx, mf, time);
    var r := TagAccess(cfg, s.tags, p.idx, mf, time).value;
    var t := Took(cfg, s.tags.lines[p.idx], p.status, mf, time);
    var w := LazyBlock(cfg, t, mf, p.status);
    assert s.tags.lines[p.idx := t][p.idx := w] == s.tags.lines[p.idx := w];
    var q := WritePackets(cfg, mf, p.status);
    assert s.missQueue + [] == s.missQueue && q + [] == q;
    var s1 := s.(tags := LazyWrite(cfg, r.tags, r.idx, mf, r.status), missQueue := s.missQueue + q);
    WriteBackEffect(cfg, s, s1, p.idx, w, q, Recorded(cfg, s, mf, p), r.evicted);
  }

  lemma WriteMissEffect(cfg: Config, s: CacheState, mf: MemFetch, time: nat, p: ProbeResult)
    requires Sized(cfg, s.tags) && p == ProbeFor(cfg, s, mf) && p.status != HIT && mf.isWrite
    requires p.status != RESERVATION_FAIL || cfg.writeAllocate == NO_WRITE_ALLOCATE
    requires WrMiss(cfg, s, mf, p.idx, time, p.status).Some?
    requires WrMiss(cfg, s, mf, p.idx, time, p.status).value.status != RESERVATION_FAIL
    ensures WrMiss(cfg, s, mf, p.idx, time, p.status).value.status == MISS
    ensures Effect(s, WrMiss(cfg, s, mf, p.idx, time, p.status).value.s, p.idx,
                   AccessedLine(cfg, s.tags.lines[p.idx], mf, p.status, time), AccessPackets(cfg, s, mf, p),
                   Recorded(cfg, s, mf, p))
  {
    hide ProbeFor, Sized, WrMissWriteAllocate, WrMissLazy, FetchAndMark, TagAccess, Took, LazyBlock, MshrAccepts,
         ReadAfterWritePending;
    match cfg.writeAllocate {
      case NO_WRITE_ALLOCATE =>
        assert [WritePacket(mf)] + [] + [] == [WritePacket(mf)];
      case WRITE_ALLOCATE => WriteAllocateEffect(cfg, s, mf, time, p);
      case FETCH_ON_WRITE =>
        if IsFull(cfg, mf) {
          FullStoreEffect(cfg, s, mf, time, p);
        } else {
          FetchAndMarkEffect(cfg, s, mf, time, p);
        }
      case LAZY_FETCH_ON_READ => LazyEffect(cfg, s, mf, time, p);
    }
  }

  // a hit, before its response is queued
  lemma WriteHitEffect(cfg: Config, s: CacheState, mf: MemFetch, time: nat, p: ProbeResult)
    requires Sized(cfg, s.tags) && p == ProbeFor(cfg, s, mf) && p.status == HIT && mf.isWrite
    requires WrHit(cfg, s, mf, p.idx, time).Some? && WrHit(cfg, s, mf, p.idx, time).value.status != RESERVATION_FAIL
    ensures WrHit(cfg, s, mf, p.idx, time).value.status == HIT
    ensures Effect(s, WrHit(cfg, s, mf, p.idx, time).value.s, p.idx,
                   WriteHitLine(cfg, s.tags.lines[p.idx], mf, time), AccessPackets(cfg, s, mf, p),
                   Recorded(cfg, s, mf, p))
  {
    hide TagAccess, ProbeTags, UpdateReadable, Config.BlockAddr, Block.SetStatus, Block.SetByteMask, Block.Touch;
    var b := s.tags.lines[p.idx];
    if TagAccess(cfg, s.tags, p.idx, mf, time).Some? {
      TagAccessTakes(cfg, s.tags, p.idx, mf, time);
    }
    var (t, v) := (b.Touch(time), Written(cfg, b.Touch(time), mf));
    var w := UpdateReadable(cfg, v, mf);
    assert s.tags.lines[p.idx := t][p.idx := v][p.idx := w] == s.tags.lines[p.idx := w];
    assert s.missQueue + ([] + [] + []) == s.missQueue && [WritePacket(mf)] + [] + [] == [WritePacket(mf)];
  }

  lemma EnqueueEffect(cfg: Config, s: CacheState, s1: CacheState, mf: MemFetch, i: nat, b: Block, q: seq<Packet>,
                      extra: map<MemFetch, Extra>)
    requires cfg.portWidth > 0 && i < |s.tags.lines| && Effect(s, s1, i, b, q, extra)
    ensures Effect(s, EnqueueHitResponse(cfg, s1, mf, i), i, b.Pin(), q, extra)
  {
    hide HitLatency, Block.Pin;
    assert s.tags.lines[i := b][i := b.Pin()] == s.tags.lines[i := b.Pin()];
  }

  lemma ReadHitEffect(cfg: Config, s: CacheState, mf: MemFetch, time: nat, p: ProbeResult)
    requires Sized(cfg, s.tags) && p == ProbeFor(cfg, s, mf) && p.status == HIT && !mf.isWrite
    requires TagAccess(cfg, s.tags, p.idx, mf, time).Some?
    ensures var r := TagAccess(cfg, s.tags, p.idx, mf, time).value;
      && r.status == HIT && |r.tags.lines| == |s.tags.lines|
      && Effect(s, s.(tags := r.tags), p.idx, Took(cfg, s.tags.lines[p.idx], HIT, mf, time),
                AccessPackets(cfg, s, mf, p), Recorded(cfg, s, mf, p))
  {
    hide TagAccess, ProbeTags, Took;
    TagAccessTakes(cfg, s.tags, p.idx, mf, time);
    assert s.missQueue + ([] + [] + []) == s.missQueue;
  }

  lemma DataAccessEffect(cfg: Config, s: CacheState, mf: MemFetch, time: nat)
    requires Sized(cfg, s.tags) && DataAccess(cfg, s, mf, time).Some?
    requires DataAccess(cfg, s, mf, time).value.status != RESERVATION_FAIL
    ensures DataAccess(cfg, s, mf, time).value.status == if ProbeFor(cfg, s, mf).status == HIT then HIT else MISS
    ensures var p := ProbeFor(cfg, s, mf);
      Effect(s, DataAccess(cfg, s, mf, time).value.s, p.idx, AccessedLine(cfg, s.tags.lines[p.idx], mf, p.status, time),
             AccessPackets(cfg, s, mf, p), Recorded(cfg, s, mf, p))
  {
    hide TagAccess, ProbeFor, WrHit, WrMiss, RdMiss, EnqueueHitResponse, Effect, WriteHitLine, WriteMissLine, Took,
         AccessPackets, Recorded;
    var p := ProbeFor(cfg, s, mf);
    if p.status == HIT {
      if mf.isWrite {
        WriteHitEffect(cfg, s, mf, time, p);
        var o := WrHit(cfg, s, mf, p.idx, time).value;
        EnqueueEffect(cfg, s, o.s, mf, p.idx, WriteHitLine(cfg, s.tags.lines[p.idx], mf, time),
                      AccessPackets(cfg, s, mf, p), Recorded(cfg, s, mf, p));
      } else {
        ReadHitEffect(cfg, s, mf, time, p);
        var r := TagAccess(cfg, s.tags, p.idx, mf, time).value;
        EnqueueEffect(cfg, s, s.(tags := r.tags), mf, p.idx, Took(cfg, s.tags.lines[p.idx], HIT, mf, time),
                      AccessPackets(cfg, s, mf, p), Recorded(cfg, s, mf, p));
      }
    } else if mf.isWrite {
      WriteMissEffect(cfg, s, mf, time, p);
    } else {
      ReadMissEffect(cfg, s, mf, time, p);
    }
  }

  lemma ReadOnlySendEffect(cfg: Config, s: CacheState, mf: MemFetch, time: nat, p: ProbeResult)
    requires Sized(cfg, s.tags) && p == ProbeFor(cfg, s, mf) && p.status != HIT && p.status != RESERVATION_FAIL
    requires cfg.writePolicy == READ_ONLY && !mf.isWrite && SendRead(cfg, s, mf, p.idx, time).Some?
    requires SendRead(cfg, s, mf, p.idx, time).value.doMiss
    ensures Effect(s, SendRead(cfg, s, mf, p.idx, time).value.s, p.idx,
                   AccessedLine(cfg, s.tags.lines[p.idx], mf, p.status, time), AccessPackets(cfg, s, mf, p),
                   Recorded(cfg, s, mf, p))
  {
    hide SendRead, ProbeFor, Effect, Took, Config.MshrAddr, Block.Pin;
    SendReadEffect(cfg, s, mf, p.idx, time);
    NothingEvicted(cfg, s, mf, p.idx, time);
    var q := FetchPackets(cfg, s, mf, p.status);
    assert [] + q + [] == q;
  }

  // a read-only cache asserts that it evicts nothing modified
  lemma NothingEvicted(cfg: Config, s: CacheState, mf: MemFetch, idx: nat, time: nat)
    requires Sized(cfg, s.tags) && idx < |s.tags.lines| && cfg.writePolicy == READ_ONLY
    requires SendRead(cfg, s, mf, idx, time).Some?
    ensures SendRead(cfg, s, mf, idx, time).value.evicted.None?
  {
    hide TagAccess, MshrAdd, MshrAccepts, MshrFull, Pin;
  }

  lemma ReadOnlyAccessEffect(cfg: Config, s: CacheState, mf: MemFetch, time: nat)
    requires Sized(cfg, s.tags) && ReadOnlyAccess(cfg, s, mf, time).Some? && !mf.isWrite
    requires cfg.writePolicy == READ_ONLY && ReadOnlyAccess(cfg, s, mf, time).value.status != RESERVATION_FAIL
    ensures ReadOnlyAccess(cfg, s, mf, time).value.status == if ProbeFor(cfg, s, mf).status == HIT then HIT else MISS
    ensures var p := ProbeFor(cfg, s, mf);
      Effect(s, ReadOnlyAccess(cfg, s, mf, time).value.s, p.idx,
             AccessedLine(cfg, s.tags.lines[p.idx], mf, p.status, time), AccessPackets(cfg, s, mf, p),
             Recorded(cfg, s, mf, p))
  {
    hide TagAccess, ProbeFor, SendRead, EnqueueHitResponse, Effect, Took, AccessPackets, Recorded;
    var p := ProbeFor(cfg, s, mf);
    if p.status == HIT {
      ReadHitEffect(cfg, s, mf, time, p);
      var r := TagAccess(cfg, s.tags, p.idx, mf, time).value;
      EnqueueEffect(cfg, s, s.(tags := r.tags), mf, p.idx, Took(cfg, s.tags.lines[p.idx], HIT, mf, time),
                    AccessPackets(cfg, s, mf, p), Recorded(cfg, s, mf, p));
    } else {
      ReadOnlySendEffect(cfg, s, mf, time, p);
    }
  }

  /** Every accepted request of a read-only or data cache, under every policy: the line it
      leaves and the packets it queues, in their order. */
  lemma AccessEffect(cfg: Config, s: CacheState, mf: MemFetch, time: nat)
    requires Sized(cfg, s.tags) && CacheAccess(cfg, s, mf, time).Some?
    requires CacheAccess(cfg, s, mf, time).value.status != RESERVATION_FAIL
    ensures CacheAccess(cfg, s, mf, time).value.status == if ProbeFor(cfg, s, mf).status == HIT then HIT else MISS
    ensures var (s', p) := (CacheAccess(cfg, s, mf, time).value.s, ProbeFor(cfg, s, mf));
      && s'.tags.lines == s.tags.lines[p.idx := AccessedLine(cfg, s.tags.lines[p.idx], mf, p.status, time)]
      && s'.missQueue == s.missQueue + AccessPackets(cfg, s, mf, p) && s'.extra == Recorded(cfg, s, mf, p)
  {
    hide DataAccess, ReadOnlyAccess, ProbeFor, AccessedLine, AccessPackets, Recorded;
    if cfg.writePolicy == READ_ONLY {
      ReadOnlyAccessEffect(cfg, s, mf, time);
    } else {
      DataAccessEffect(cfg, s, mf, time);
    }
  }
}
