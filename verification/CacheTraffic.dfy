/** The traffic of an access: which response it takes on, which fetch it queues,
    and which MSHR entry it touches. */
module CacheTraffic {
  import opened CacheTypes
  import opened Options
  import opened TagArrays
  import opened CacheModel
  import opened CacheAdmission
  import opened CacheOperations
  import opened CacheCore

  // ---- what an access adds ----

  // the response an access with this outcome takes on
  function Owed(cfg: Config, s: CacheState, mf: MemFetch, status: RequestStatus): Option<MemFetch> {
    if status == RESERVATION_FAIL then None
    else if !mf.isWrite || status == HIT then Some(mf)
    else if cfg.writeAllocate == WRITE_ALLOCATE then Some(AllocateFetch(cfg, s, mf))
    else if cfg.writeAllocate == FETCH_ON_WRITE && |mf.bytes| != cfg.AtomSize() then Some(AllocateFetch(cfg, s, mf))
    else None
  }

  function AsSeq<T>(o: Option<T>): seq<T> { if o.Some? then [o.value] else [] }
  function AsSet<T>(o: Option<T>): set<T> { if o.Some? then {o.value} else {} }

  // the fetches among the packets
  function Reads(q: seq<Packet>): seq<MemFetch> {
    if q == [] then []
    else (if q[0].ReadPacket? then [q[0].fetch] else []) + Reads(q[1..])
  }

  lemma {:induction false} ReadsConcat(p: seq<Packet>, q: seq<Packet>)
    ensures Reads(p + q) == Reads(p) + Reads(q)
    decreases |p|
  {
    if p == [] {
      assert p + q == q;
    } else {
      assert (p + q)[1..] == p[1..] + q && (p + q)[0] == p[0];
      ReadsConcat(p[1..], q);
      var head := if p[0].ReadPacket? then [p[0].fetch] else [];
      assert head + (Reads(p[1..]) + Reads(q)) == head + Reads(p[1..]) + Reads(q);
    }
  }

  lemma ReadsOne(p: Packet)
    ensures Reads([p]) == if p.ReadPacket? then [p.fetch] else []
  {
    assert [p][1..] == [];
  }

  // a new fetch is recorded exactly when it is queued
  ghost predicate Tracks(cfg: Config, s: CacheState, s': CacheState, owed: Option<MemFetch>, fetch: Option<MemFetch>)
    requires cfg.lineSize > 0
  {
    && s'.pending.Keys == s.pending.Keys + AsSet(owed)
    && Reads(s'.missQueue) == Reads(s.missQueue) + AsSeq(fetch)
    && s'.extra.Keys == s.extra.Keys + AsSet(fetch)
    && (fetch.Some? ==> fetch.value !in s.pending)
    && (s'.mshr == s.mshr || (owed.Some? && s'.mshr == MshrAdd(s.mshr, cfg.MshrAddr(owed.value.addr), owed.value)))
  }

  lemma QueueTracks(cfg: Config, s: CacheState, s1: CacheState, s': CacheState, owed: Option<MemFetch>,
                    fetch: Option<MemFetch>, p: Packet)
    requires cfg.lineSize > 0 && Tracks(cfg, s, s1, owed, fetch) && !p.ReadPacket?
    requires s'.mshr == s1.mshr && s'.pending == s1.pending && s'.extra == s1.extra
             && s'.missQueue == s1.missQueue + [p]
    ensures Tracks(cfg, s, s', owed, fetch)
  {
    ReadsConcat(s1.missQueue, [p]);
    ReadsOne(p);
  }

  lemma WriteBackTracks(cfg: Config, s: CacheState, s1: CacheState, evicted: Option<Evicted>, owed: Option<MemFetch>,
                        fetch: Option<MemFetch>)
    requires cfg.lineSize > 0 && Tracks(cfg, s, s1, owed, fetch)
    ensures Tracks(cfg, s, SendWriteBack(cfg, s1, evicted), owed, fetch)
  {
    hide Tracks;
    if evicted.Some? {
      QueueTracks(cfg, s, s1,
                  SendWriteBack(cfg, s1, evicted).(missQueue := s1.missQueue + [WriteBackPacket(evicted.value)]),
                  owed, fetch, WriteBackPacket(evicted.value));
    }
  }

  lemma SendReadFields(cfg: Config, s: CacheState, mf: MemFetch, idx: nat, time: nat)
    requires Sized(cfg, s.tags) && idx < |s.tags.lines| && SendRead(cfg, s, mf, idx, time).Some?
    requires SendRead(cfg, s, mf, idx, time).value.doMiss
    ensures var (s', a) := (SendRead(cfg, s, mf, idx, time).value.s, cfg.MshrAddr(mf.addr));
            && mf in s'.pending && s'.pending == s.pending[mf := s'.pending[mf]] && s'.mshr == MshrAdd(s.mshr, a, mf)
            && if a in s.mshr then s'.missQueue == s.missQueue && s'.extra == s.extra
               else s'.missQueue == s.missQueue + [ReadPacket(mf, a)] && mf in s'.extra
                    && s'.extra == s.extra[mf := s'.extra[mf]]
  {
    hide TagAccess, MshrAdd, Pin, MshrAccepts, Config.MshrAddr, MshrFull;
  }

  lemma SendReadTracks(cfg: Config, s: CacheState, mf: MemFetch, idx: nat, time: nat)
    requires Sized(cfg, s.tags) && idx < |s.tags.lines| && SendRead(cfg, s, mf, idx, time).Some? && mf !in s.pending
    requires SendRead(cfg, s, mf, idx, time).value.doMiss
    ensures var a := cfg.MshrAddr(mf.addr);
            Tracks(cfg, s, SendRead(cfg, s, mf, idx, time).value.s, Some(mf), if a in s.mshr then None else Some(mf))
  {
    hide SendRead, Reads, MshrAdd, Config.MshrAddr;
    SendReadFields(cfg, s, mf, idx, time);
    var p := ReadPacket(mf, cfg.MshrAddr(mf.addr));
    ReadsConcat(s.missQueue, [p]);
    ReadsOne(p);
    assert Reads(s.missQueue) + [] == Reads(s.missQueue);
  }

  lemma ReadMissTracks(cfg: Config, s: CacheState, mf: MemFetch, idx: nat, time: nat)
    returns (fetch: Option<MemFetch>)
    requires cfg.Valid() && Sized(cfg, s.tags) && idx < |s.tags.lines| && RdMiss(cfg, s, mf, idx, time).Some?
             && mf !in s.pending
    requires RdMiss(cfg, s, mf, idx, time).value.status != RESERVATION_FAIL
    ensures RdMiss(cfg, s, mf, idx, time).value.status == MISS
    ensures Tracks(cfg, s, RdMiss(cfg, s, mf, idx, time).value.s, Some(mf), fetch)
  {
    hide SendRead, Sized, Tracks, SendWriteBack;
    var r := SendRead(cfg, s, mf, idx, time).value;
    SendReadTracks(cfg, s, mf, idx, time);
    fetch := if cfg.MshrAddr(mf.addr) in s.mshr then None else Some(mf);
    WriteBackTracks(cfg, s, r.s, r.evicted, Some(mf), fetch);
  }

  lemma NothingTracks(cfg: Config, s: CacheState, s': CacheState)
    requires cfg.lineSize > 0 && s'.mshr == s.mshr
    requires s'.pending == s.pending && s'.extra == s.extra && s'.missQueue == s.missQueue
    ensures Tracks(cfg, s, s', None, None)
  {
  }

  lemma WriteAllocateTracks(cfg: Config, s: CacheState, mf: MemFetch, idx: nat, time: nat, probed: RequestStatus)
    returns (fetch: Option<MemFetch>)
    requires cfg.Valid() && Sized(cfg, s.tags) && idx < |s.tags.lines| && AllocateFetch(cfg, s, mf) !in s.pending
    requires WrMissWriteAllocate(cfg, s, mf, idx, time, probed).Some?
    requires WrMissWriteAllocate(cfg, s, mf, idx, time, probed).value.status != RESERVATION_FAIL
    ensures WrMissWriteAllocate(cfg, s, mf, idx, time, probed).value.status == MISS
    ensures Tracks(cfg, s, WrMissWriteAllocate(cfg, s, mf, idx, time, probed).value.s,
                   Some(AllocateFetch(cfg, s, mf)), fetch)
  {
    hide SendRead, Sized, Tracks, SendWriteBack, AllocateFetch, MshrAccepts;
    var sent := s.(missQueue := s.missQueue + [WritePacket(mf)], nextId := s.nextId + 1);
    var f := AllocateFetch(cfg, s, mf);
    var r := SendRead(cfg, sent, f, idx, time).value;
    SendReadTracks(cfg, sent, f, idx, time);
    fetch := if cfg.MshrAddr(f.addr) in s.mshr then None else Some(f);
    AfterWriteTracks(cfg, s, sent, r.s, Some(f), fetch, WritePacket(mf));
    WriteBackTracks(cfg, s, r.s, r.evicted, Some(f), fetch);
  }

  lemma AfterWriteTracks(cfg: Config, s: CacheState, sent: CacheState, s': CacheState, owed: Option<MemFetch>,
                         fetch: Option<MemFetch>, p: Packet)
    requires cfg.lineSize > 0 && Tracks(cfg, sent, s', owed, fetch) && !p.ReadPacket?
    requires sent.mshr == s.mshr && sent.pending == s.pending && sent.extra == s.extra
             && sent.missQueue == s.missQueue + [p]
    ensures Tracks(cfg, s, s', owed, fetch)
  {
    ReadsConcat(s.missQueue, [p]);
    ReadsOne(p);
  }

  lemma LazyMissTracks(cfg: Config, s: CacheState, mf: MemFetch, idx: nat, time: nat)
    requires Sized(cfg, s.tags) && idx < |s.tags.lines| && WrMissLazy(cfg, s, mf, idx, time).Some?
    ensures Tracks(cfg, s, WrMissLazy(cfg, s, mf, idx, time).value.s, None, None)
    ensures WrMissLazy(cfg, s, mf, idx, time).value.status != HIT
  {
    hide TagAccess, Tracks, SendWriteBack, LazyWrite;
    NothingTracks(cfg, s, s);
    if !MissQueueFull(cfg, s, 0) {
      var r := TagAccess(cfg, s.tags, idx, mf, time).value;
      var s1 := s.(tags := LazyWrite(cfg, r.tags, r.idx, mf, r.status));
      NothingTracks(cfg, s, s1);
      if cfg.writePolicy == WRITE_THROUGH {
        var s2 := s1.(missQueue := s.missQueue + [WritePacket(mf)]);
        QueueTracks(cfg, s, s1, s2, None, None, WritePacket(mf));
        WriteBackTracks(cfg, s, s2, r.evicted, None, None);
      } else {
        WriteBackTracks(cfg, s, s1, r.evicted, None, None);
      }
    }
  }

  lemma FetchTracks(cfg: Config, s: CacheState, mf: MemFetch, idx: nat, time: nat) returns (fetch: Option<MemFetch>)
    requires cfg.Valid() && Sized(cfg, s.tags) && idx < |s.tags.lines| && AllocateFetch(cfg, s, mf) !in s.pending
    requires FetchAndMark(cfg, s, mf, idx, time).Some?
    requires FetchAndMark(cfg, s, mf, idx, time).value.status != RESERVATION_FAIL
    ensures FetchAndMark(cfg, s, mf, idx, time).value.status == MISS
    ensures Tracks(cfg, s, FetchAndMark(cfg, s, mf, idx, time).value.s, Some(AllocateFetch(cfg, s, mf)), fetch)
  {
    hide SendRead, Tracks, SendWriteBack, AllocateFetch, OnLine;
    var sent := s.(nextId := s.nextId + 1);
    var f := AllocateFetch(cfg, s, mf);
    var r := SendRead(cfg, sent, f, idx, time).value;
    SendReadTracks(cfg, sent, f, idx, time);
    fetch := if cfg.MshrAddr(f.addr) in s.mshr then None else Some(f);
    var b := r.s.tags.lines[idx].SetModifiedOnFill(true, cfg.SectorOf(mf)).SetByteMaskOnFill(true);
    var s1 := r.s.(tags := OnLine(r.s.tags, idx, b));
    SameTrafficTracks(cfg, s, sent, r.s, s1, Some(f), fetch);
    WriteBackTracks(cfg, s, s1, r.evicted, Some(f), fetch);
  }

  // lines and ids play no part
  lemma SameTrafficTracks(cfg: Config, s: CacheState, sent: CacheState, r: CacheState, s': CacheState,
                          owed: Option<MemFetch>, fetch: Option<MemFetch>)
    requires cfg.lineSize > 0 && Tracks(cfg, sent, r, owed, fetch)
    requires sent == s.(nextId := sent.nextId) && s' == r.(tags := s'.tags)
    ensures Tracks(cfg, s, s', owed, fetch)
  {
  }

  lemma FetchOnWriteTracks(cfg: Config, s: CacheState, mf: MemFetch, idx: nat, time: nat)
    returns (fetch: Option<MemFetch>)
    requires cfg.Valid() && Sized(cfg, s.tags) && idx < |s.tags.lines| && AllocateFetch(cfg, s, mf) !in s.pending
    requires WrMissFetchOnWrite(cfg, s, mf, idx, time).Some?
    requires WrMissFetchOnWrite(cfg, s, mf, idx, time).value.status != RESERVATION_FAIL
    ensures WrMissFetchOnWrite(cfg, s, mf, idx, time).value.status == MISS
    ensures Tracks(cfg, s, WrMissFetchOnWrite(cfg, s, mf, idx, time).value.s,
                   if |mf.bytes| == cfg.AtomSize() then None else Some(AllocateFetch(cfg, s, mf)), fetch)
  {
    hide TagAccess, Tracks, SendWriteBack, WriteInto, AllocateFetch, FetchAndMark, MshrAccepts, ReadAfterWritePending;
    fetch := None;
    if |mf.bytes| == cfg.AtomSize() {
      var r := TagAccess(cfg, s.tags, idx, mf, time).value;
      var s1 := s.(tags := WriteInto(cfg, r.tags, r.idx, mf));
      NothingTracks(cfg, s, s1);
      WriteBackTracks(cfg, s, s1, r.evicted, None, None);
    } else {
      fetch := FetchTracks(cfg, s, mf, idx, time);
    }
  }

  lemma WriteMissTracks(cfg: Config, s: CacheState, mf: MemFetch, time: nat, p: ProbeResult)
    returns (fetch: Option<MemFetch>)
    requires CoreInv(cfg, s) && mf.isWrite && p.idx < |s.tags.lines| && WrMiss(cfg, s, mf, p.idx, time, p.status).Some?
    requires WrMiss(cfg, s, mf, p.idx, time, p.status).value.status != RESERVATION_FAIL && cfg.writePolicy != READ_ONLY
    ensures var o := WrMiss(cfg, s, mf, p.idx, time, p.status).value;
            o.status != HIT && Tracks(cfg, s, o.s, Owed(cfg, s, mf, o.status), fetch)
  {
    hide CoreInv, WrMissWriteAllocate, WrMissLazy, WrMissFetchOnWrite, Sized, Tracks;
    CoreIsSized(cfg, s);
    fetch := None;
    match cfg.writeAllocate {
      case NO_WRITE_ALLOCATE =>
        NothingTracks(cfg, s, s);
        QueueTracks(cfg, s, s, WrMiss(cfg, s, mf, p.idx, time, p.status).value.s, None, None, WritePacket(mf));
      case WRITE_ALLOCATE =>
        FreshIdIsNotPending(cfg, s, AllocateFetch(cfg, s, mf));
        fetch := WriteAllocateTracks(cfg, s, mf, p.idx, time, p.status);
      case LAZY_FETCH_ON_READ => LazyMissTracks(cfg, s, mf, p.idx, time);
      case FETCH_ON_WRITE =>
        FreshIdIsNotPending(cfg, s, AllocateFetch(cfg, s, mf));
        fetch := FetchOnWriteTracks(cfg, s, mf, p.idx, time);
    }
  }

  lemma EnqueueTracks(cfg: Config, s: CacheState, s1: CacheState, mf: MemFetch, i: nat)
    requires cfg.Valid() && i < |s1.tags.lines| && Tracks(cfg, s, s1, None, None)
    ensures Tracks(cfg, s, EnqueueHitResponse(cfg, s1, mf, i), Some(mf), None)
  {
    hide Reads;
  }

  lemma WriteHitTracks(cfg: Config, s: CacheState, mf: MemFetch, time: nat, idx: nat)
    requires CoreInv(cfg, s) && idx < |s.tags.lines| && WrHit(cfg, s, mf, idx, time).Some?
    ensures Tracks(cfg, s, WrHit(cfg, s, mf, idx, time).value.s, None, None)
  {
    hide CoreInv, WrHitWb, Sized, Tracks;
    CoreIsSized(cfg, s);
    WrHitWbHits(cfg, s, mf, idx, time);
    var o := WrHit(cfg, s, mf, idx, time).value;
    NothingTracks(cfg, s, s);
    if WrHitWb(cfg, s, mf, idx, time).Some? {
      var w := WrHitWb(cfg, s, mf, idx, time).value.s;
      NothingTracks(cfg, s, w);
      if cfg.writePolicy == WRITE_THROUGH && o.status != RESERVATION_FAIL {
        QueueTracks(cfg, s, w, o.s, None, None, WritePacket(mf));
      }
    }
    if WrHitWe(cfg, s, mf, idx).Some? && !MissQueueFull(cfg, s, 0) {
      var w := WrHitWe(cfg, s, mf, idx).value.s;
      NothingTracks(cfg, s, w.(missQueue := s.missQueue));
      QueueTracks(cfg, s, w.(missQueue := s.missQueue), w, None, None, WritePacket(mf));
    }
  }

  lemma DispatchTracks(cfg: Config, s: CacheState, mf: MemFetch, time: nat, p: ProbeResult)
    returns (owed: Option<MemFetch>, fetch: Option<MemFetch>)
    requires CoreInv(cfg, s) && Presentable(cfg, s, mf, time) && cfg.writePolicy != READ_ONLY && p.idx < |s.tags.lines|
    requires Dispatch(cfg, s, mf, time, p).Some? && Dispatch(cfg, s, mf, time, p).value.status != RESERVATION_FAIL
    ensures var o := Dispatch(cfg, s, mf, time, p).value;
            && Tracks(cfg, s, o.s, owed, fetch)
            && (if p.status == HIT then owed.None? && fetch.None? else owed == Owed(cfg, s, mf, o.status))
            && (p.status != HIT ==> o.status != HIT)
  {
    hide CoreInv, WrHit, WrMiss, RdMiss, Sized, TagAccess, Tracks, AllocateFetch;
    CoreIsSized(cfg, s);
    owed, fetch := None, None;
    var o := Dispatch(cfg, s, mf, time, p).value;
    if mf.isWrite {
      if p.status == HIT {
        WriteHitTracks(cfg, s, mf, time, p.idx);
      } else {
        fetch := WriteMissTracks(cfg, s, mf, time, p);
        owed := Owed(cfg, s, mf, o.status);
      }
    } else if p.status == HIT {
      NothingTracks(cfg, s, o.s);
    } else {
      fetch := ReadMissTracks(cfg, s, mf, p.idx, time);
      owed := Some(mf);
    }
  }

  lemma DataAccessTracks(cfg: Config, s: CacheState, mf: MemFetch, time: nat) returns (fetch: Option<MemFetch>)
    requires CoreInv(cfg, s) && Presentable(cfg, s, mf, time) && cfg.writePolicy != READ_ONLY
    requires DataAccess(cfg, s, mf, time).Some? && DataAccess(cfg, s, mf, time).value.status != RESERVATION_FAIL
    ensures var o := DataAccess(cfg, s, mf, time).value; Tracks(cfg, s, o.s, Owed(cfg, s, mf, o.status), fetch)
  {
    hide CoreInv, Dispatch, Sized, Tracks, AllocateFetch, EnqueueHitResponse, ProbeFor;
    CoreIsSized(cfg, s);
    var p := ProbeFor(cfg, s, mf);
    var owed;
    owed, fetch := DispatchTracks(cfg, s, mf, time, p);
    var o := Dispatch(cfg, s, mf, time, p).value;
    if p.status == HIT {
      HitDispatchHits(cfg, s, mf, time, p);
      EnqueueTracks(cfg, s, o.s, mf, p.idx);
    }
  }

  lemma HitDispatchHits(cfg: Config, s: CacheState, mf: MemFetch, time: nat, p: ProbeResult)
    requires CoreInv(cfg, s) && p.idx < |s.tags.lines| && p.status == HIT && Dispatch(cfg, s, mf, time, p).Some?
    requires Dispatch(cfg, s, mf, time, p).value.status != RESERVATION_FAIL
    ensures Dispatch(cfg, s, mf, time, p).value.status == HIT
  {
    hide CoreInv, WrHitWb, Sized, TagAccess;
    CoreIsSized(cfg, s);
    WrHitWbHits(cfg, s, mf, p.idx, time);
  }

  lemma ReadOnlyTracks(cfg: Config, s: CacheState, mf: MemFetch, time: nat) returns (fetch: Option<MemFetch>)
    requires CoreInv(cfg, s) && Presentable(cfg, s, mf, time) && cfg.writePolicy == READ_ONLY
    requires ReadOnlyAccess(cfg, s, mf, time).Some? && ReadOnlyAccess(cfg, s, mf, time).value.status != RESERVATION_FAIL
    ensures Tracks(cfg, s, ReadOnlyAccess(cfg, s, mf, time).value.s, Some(mf), fetch)
  {
    hide CoreInv, Sized, Tracks, EnqueueHitResponse, ProbeFor, TagAccess, SendRead;
    CoreIsSized(cfg, s);
    var p := ProbeFor(cfg, s, mf);
    fetch := None;
    if p.status == HIT {
      HitIsTaken(cfg, s, mf, p.idx, time);
      var s1 := s.(tags := TagAccess(cfg, s.tags, p.idx, mf, time).value.tags);
      NothingTracks(cfg, s, s1);
      EnqueueTracks(cfg, s, s1, mf, p.idx);
    } else {
      SendReadTracks(cfg, s, mf, p.idx, time);
      fetch := if cfg.MshrAddr(mf.addr) in s.mshr then None else Some(mf);
    }
  }

  /** An access takes on exactly the response it reports, and a fetch is recorded
      as outstanding exactly when it is queued. */
  lemma AccessTracks(cfg: Config, s: CacheState, mf: MemFetch, time: nat) returns (fetch: Option<MemFetch>)
    requires CoreInv(cfg, s) && Presentable(cfg, s, mf, time) && CacheAccess(cfg, s, mf, time).Some?
    ensures var o := CacheAccess(cfg, s, mf, time).value; Tracks(cfg, s, o.s, Owed(cfg, s, mf, o.status), fetch)
  {
    hide CoreInv, DataAccess, ReadOnlyAccess, Tracks, AllocateFetch;
    CoreIsSized(cfg, s);
    var o := CacheAccess(cfg, s, mf, time).value;
    fetch := None;
    if o.status == RESERVATION_FAIL {
      RejectionHasNoEffect(cfg, s, mf, time);
      NothingTracks(cfg, s, s);
    } else if cfg.writePolicy == READ_ONLY {
      fetch := ReadOnlyTracks(cfg, s, mf, time);
    } else {
      fetch := DataAccessTracks(cfg, s, mf, time);
    }
  }
}
