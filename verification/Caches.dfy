/** The classes mshr_table, baseline_cache, read_only_cache and data_cache: their
    methods compute the operations of CacheModel.  Each requires that the model
    reaches a result, that is, that no assertion of the original fails. */
module Caches {
  import opened CacheTypes
  import opened Options
  import opened TagArrays
  import opened CacheModel
  import opened CacheInvariant
  import opened CacheOperations
  import opened CacheReturns
  import opened CacheCore

  class Mshrs {
    const cfg: Config
    var data: map<nat, seq<MemFetch>>
    var current: seq<nat>

    constructor (cfg: Config)
      ensures this.cfg == cfg && data == map[] && current == []
    {
      this.cfg := cfg;
      data := map[];
      current := [];
    }

    predicate Probe(a: nat)
      reads this
    {
      a in data
    }

    predicate Full(a: nat)
      reads this
    {
      if a in data then |data[a]| >= cfg.mshrMaxMerge else |data| >= cfg.mshrEntries
    }

    method Add(a: nat, mf: MemFetch)
      requires |MshrAdd(data, a, mf)| <= cfg.mshrEntries && |MshrAdd(data, a, mf)[a]| <= cfg.mshrMaxMerge
      modifies this`data
      ensures data == MshrAdd(old(data), a, mf)
    {
      data := data[a := (if a in data then data[a] else []) + [mf]];
      assert |data| <= cfg.mshrEntries;
      assert |data[a]| <= cfg.mshrMaxMerge;
    }

    method IsReadAfterWritePending(a: nat) returns (r: bool)
      requires a in data
      ensures r == ReadAfterWritePending(data[a])
    {
      var q := data[a];
      var writeFound := false;
      for i := 0 to |q|
        invariant writeFound <==> exists j :: 0 <= j < i && q[j].isWrite
        invariant forall j, k :: 0 <= j < k < i && q[j].isWrite ==> q[k].isWrite
      {
        if q[i].isWrite {
          writeFound := true;
        } else if writeFound {
          var j :| 0 <= j < i && q[j].isWrite;
          return true;
        }
      }
      return false;
    }

    method MarkReady(a: nat)
      requires a in data && |current| + 1 <= |data|
      modifies this`current
      ensures current == old(current) + [a]
    {
      current := current + [a];
      assert |current| <= |data|;
    }

    // the next request of the entry at the front of the ready list
    method NextAccess() returns (mf: MemFetch)
      requires current != [] && current[0] in data && data[current[0]] != []
      modifies this
      ensures mf == old(data[current[0]][0])
      ensures var (a, q) := (old(current[0]), old(data[current[0]]));
              if |q| == 1 then data == old(data) - {a} && current == old(current[1..])
              else data == old(data)[a := q[1..]] && current == old(current)
    {
      var a := current[0];
      mf := data[a][0];
      data := data[a := data[a][1..]];
      if data[a] == [] {
        data := data - {a};
        current := current[1..];
      }
    }
  }

  class Cache {
    const cfg: Config
    const tags: TagArray
    const mshrs: Mshrs
    var missQueue: seq<Packet>
    var hitQueue: seq<HitEntry>
    var readyQueue: seq<MemFetch>
    var extra: map<MemFetch, Extra>
    var pending: map<MemFetch, nat>
    var nextId: nat

    ghost predicate Valid()
      reads this, tags, tags.lines, mshrs
    {
      tags.Valid() && tags.cfg == cfg && mshrs.cfg == cfg
    }

    ghost function State(): CacheState
      reads this, tags, tags.lines, mshrs
    {
      CacheState(tags.State(), mshrs.data, mshrs.current, missQueue, hitQueue, readyQueue, extra, pending, nextId)
    }

    // no time stamp has reached probe's sentinel
    ghost predicate InTime()
      reads this, tags, tags.lines
    {
      TimesBelowSentinel(tags.Contents())
    }

    constructor (cfg: Config)
      requires cfg.Valid()
      ensures Valid() && this.cfg == cfg && State() == InitialCache(cfg)
    {
      this.cfg := cfg;
      tags := new TagArray(cfg);
      mshrs := new Mshrs(cfg);
      missQueue, hitQueue, readyQueue, extra, pending, nextId := [], [], [], map[], map[], 0;
    }

    // miss_queue_full: is there no room for this many more requests?
    predicate QueueFull(misses: nat)
      reads this
    {
      |missQueue| + misses >= cfg.missQueueSize
    }

    // ---- pins ----

    method PinResponse(mf: MemFetch, idx: nat)
      requires Valid() && idx < |tags.lines|
      modifies this`pending, tags.lines
      ensures Valid()
      ensures State() == old(State()).(tags := Pin(old(State()).tags, idx), pending := old(pending)[mf := idx])
    {
      tags.lines[idx].Pin();
      tags.ChangedAt(idx);
      pending := pending[mf := idx];
    }

    method UnpinResponse(mf: MemFetch)
      requires Valid() && Unpin(State(), mf).Some?
      modifies this`pending, tags.lines
      ensures Valid() && Unpin(old(State()), mf) == Some(State())
    {
      if mf in pending {
        var idx := pending[mf];
        assert tags.lines[idx].Value() == tags.Contents()[idx];
        tags.lines[idx].Unpin();
        tags.ChangedAt(idx);
        pending := pending - {mf};
      }
    }

    method EnqueueResponse(mf: MemFetch, idx: nat)
      requires Valid() && idx < |tags.lines|
      modifies this`pending, this`hitQueue, tags.lines
      ensures Valid() && State() == EnqueueHitResponse(cfg, old(State()), mf, idx)
    {
      PinResponse(mf, idx);
      hitQueue := hitQueue + [HitEntry(mf, HitLatency(cfg, mf))];
    }

    // ---- send_read_request ----

    // tag_array::access, with the assertion of its SECTOR_MISS case
    method TagArrayAccess(idx: nat, mf: MemFetch, time: nat)
      returns (status: RequestStatus, i: nat, evicted: Option<Evicted>)
      requires Valid() && InTime() && idx < |tags.lines| && TagAccess(cfg, State().tags, idx, mf, time).Some?
      modifies tags, tags.lines
      ensures Valid() && State() == old(State()).(tags := State().tags) && i < |tags.lines|
      ensures TagAccess(cfg, old(State()).tags, idx, mf, time) == Some(AccessResult(State().tags, status, i, evicted))
    {
      status, i, evicted := tags.Access(cfg.BlockAddr(mf.addr), time, cfg.SectorOf(mf), mf.isWrite);
      assert status == SECTOR_MISS ==> cfg.cacheType == SECTOR;
      if status == RESERVATION_FAIL {
        i := idx;
      }
    }

    method SendReadRequest(mf: MemFetch, idx: nat, time: nat) returns (doMiss: bool, evicted: Option<Evicted>)
      requires Valid() && InTime() && idx < |tags.lines| && SendRead(cfg, State(), mf, idx, time).Some?
      modifies this, tags, tags.lines, mshrs
      ensures Valid() && SendRead(cfg, old(State()), mf, idx, time) == Some(ReadSent(State(), doMiss, evicted))
    {
      hide AccessTags, TagArray.Valid, TagArray.Contents;
      var a := cfg.MshrAddr(mf.addr);
      var hit := mshrs.Probe(a);
      var available := !mshrs.Full(a);
      doMiss, evicted := false, None;
      if available && (hit || |missQueue| < cfg.missQueueSize) {
        var status, i;
        status, i, evicted := TagArrayAccess(idx, mf, time);
        assert cfg.writePolicy == READ_ONLY ==> evicted.None?;
        mshrs.Add(a, mf);
        PinResponse(mf, i);
        if !hit {
          extra := extra[mf := Extra(a, i)];
          missQueue := missQueue + [ReadPacket(mf, a)];
        }
        doMiss := true;
      } else {
        assert !available;
      }
    }

    method QueueWriteBack(evicted: Option<Evicted>)
      requires Valid()
      modifies this`missQueue
      ensures Valid() && State() == SendWriteBack(cfg, old(State()), evicted)
    {
      if evicted.Some? && cfg.writePolicy != WRITE_THROUGH {
        missQueue := missQueue + [WriteBackPacket(evicted.value)];
      }
    }

    method SendWriteRequest(mf: MemFetch)
      requires Valid()
      modifies this`missQueue
      ensures Valid() && State() == old(State()).(missQueue := old(missQueue) + [WritePacket(mf)])
    {
      missQueue := missQueue + [WritePacket(mf)];
    }

    // ---- writing into a line ----

    // inc_dirty, set_status(MODIFIED), set_byte_mask
    method MarkModified(idx: nat, mf: MemFetch)
      requires Valid() && idx < |tags.lines|
      modifies tags, tags.lines
      ensures Valid() && State() == old(State()).(tags := WriteInto(cfg, old(State()).tags, idx, mf))
    {
      var block := tags.lines[idx];
      assert block.Value() == tags.Contents()[idx];
      if !block.Value().IsModifiedLine() {
        tags.dirty := tags.dirty + 1;
      }
      block.SetStatus(MODIFIED, cfg.SectorOf(mf));
      block.SetByteMask(mf.bytes);
      tags.ChangedAt(idx);
    }

    // update_m_readable: a fully written sector can be read
    method UpdateReadability(idx: nat, mf: MemFetch)
      requires Valid() && idx < |tags.lines|
      modifies tags.lines
      ensures Valid()
      ensures var t := old(State()).tags;
              State() == old(State()).(tags := OnLine(t, idx, UpdateReadable(cfg, t.lines[idx], mf)))
    {
      var block := tags.lines[idx];
      ghost var b := block.Value();
      assert b == tags.Contents()[idx];
      var allSet := true;
      var k := mf.sector * SECTOR_SIZE;
      while allSet && k < (mf.sector + 1) * SECTOR_SIZE
        invariant mf.sector * SECTOR_SIZE <= k <= (mf.sector + 1) * SECTOR_SIZE
        invariant allSet ==> forall n :: mf.sector * SECTOR_SIZE <= n < k ==> n in b.dirtyBytes
        invariant !allSet ==> !SectorFullyDirty(b, mf.sector)
      {
        if k !in block.dirtyBytes {
          allSet := false;
        }
        k := k + 1;
      }
      if allSet {
        block.SetReadable(true, cfg.SectorOf(mf));
      }
      tags.ChangedAt(idx);
    }

    // ---- write hits ----

    method WriteHitBack(mf: MemFetch, idx: nat, time: nat) returns (status: RequestStatus)
      requires Valid() && InTime() && idx < |tags.lines| && WrHitWb(cfg, State(), mf, idx, time).Some?
      modifies tags, tags.lines
      ensures Valid() && WrHitWb(cfg, old(State()), mf, idx, time) == Some(Outcome(State(), status))
    {
      hide WriteInto, UpdateReadable, TagArray.Valid, TagArray.Contents;
      var _, i, evicted := TagArrayAccess(idx, mf, time);
      assert evicted.None?;
      MarkModified(i, mf);
      UpdateReadability(i, mf);
      status := HIT;
    }

    method WriteHitThrough(mf: MemFetch, idx: nat, time: nat) returns (status: RequestStatus)
      requires Valid() && InTime() && idx < |tags.lines| && WrHitWt(cfg, State(), mf, idx, time).Some?
      modifies this`missQueue, tags, tags.lines
      ensures Valid() && WrHitWt(cfg, old(State()), mf, idx, time) == Some(Outcome(State(), status))
    {
      hide WrHitWb, TagArray.Contents;
      if QueueFull(0) {
        return RESERVATION_FAIL;
      }
      WriteHitOnlyTags(cfg, State(), mf, idx, time);
      status := WriteHitBack(mf, idx, time);
      SendWriteRequest(mf);
    }
  
    method WriteHitEvict(mf: MemFetch, idx: nat) returns (status: RequestStatus)
      requires Valid() && idx < |tags.lines|
      modifies this`missQueue, tags.lines
      ensures Valid() && WrHitWe(cfg, old(State()), mf, idx) == Some(Outcome(State(), status))
    {
      if QueueFull(0) {
        return RESERVATION_FAIL;
      }
      SendWriteRequest(mf);
      assert tags.lines[idx].Value() == tags.Contents()[idx];
      tags.lines[idx].SetStatus(INVALID, cfg.SectorOf(mf));
      tags.ChangedAt(idx);
      status := HIT;
    }

    // the handler the constructor selects for write hits
    method WriteHit(mf: MemFetch, idx: nat, time: nat) returns (status: RequestStatus)
      requires Valid() && InTime() && idx < |tags.lines| && WrHit(cfg, State(), mf, idx, time).Some?
      modifies this, tags, tags.lines
      ensures Valid() && WrHit(cfg, old(State()), mf, idx, time) == Some(Outcome(State(), status))
    {
      hide WrHitWb, WrHitWt, WrHitWe, TagArray.Contents;
      match cfg.writePolicy {
        case READ_ONLY =>
        case WRITE_BACK => status := WriteHitBack(mf, idx, time);
        case WRITE_THROUGH => status := WriteHitThrough(mf, idx, time);
        case WRITE_EVICT => status := WriteHitEvict(mf, idx);
        case LOCAL_WB_GLOBAL_WT =>
          if mf.isGlobal {
            status := WriteHitEvict(mf, idx);
          } else {
            status := WriteHitBack(mf, idx, time);
          }
      }
    }

    // ---- write misses ----

    method NewFetch(mf: MemFetch) returns (fetch: MemFetch)
      requires Valid()
      modifies this`nextId
      ensures Valid() && fetch == AllocateFetch(cfg, old(State()), mf)
              && State() == old(State()).(nextId := old(nextId) + 1)
    {
      fetch := MemFetch(Allocated(nextId), mf.addr, cfg.AtomSize(), false, false, mf.sector, mf.bytes);
      nextId := nextId + 1;
    }

    method MshrRoom(a: nat) returns (room: bool)
      requires Valid()
      ensures room == MshrAccepts(cfg, State(), a)
    {
      var hit := mshrs.Probe(a);
      var available := !mshrs.Full(a);
      room := (hit && available) || (!hit && available && |missQueue| < cfg.missQueueSize);
    }

    method WriteMissAllocate(mf: MemFetch, idx: nat, time: nat, probed: RequestStatus) returns (status: RequestStatus)
      requires Valid() && InTime() && idx < |tags.lines|
               && WrMissWriteAllocate(cfg, State(), mf, idx, time, probed).Some?
      modifies this, tags, tags.lines, mshrs
      ensures Valid() && WrMissWriteAllocate(cfg, old(State()), mf, idx, time, probed) == Some(Outcome(State(), status))
    {
      hide SendRead, SendWriteBack, MshrAccepts, AllocateFetch, TagArray.Contents;
      var room := MshrRoom(cfg.MshrAddr(mf.addr));
      if QueueFull(2) || !room {
        return RESERVATION_FAIL;
      }
      SendWriteRequest(mf);
      var fetch := NewFetch(mf);
      FetchIgnoresQueue(cfg, old(State()), mf, old(missQueue) + [WritePacket(mf)]);
      var doMiss, evicted := SendReadRequest(fetch, idx, time);
      if !doMiss {
        return RESERVATION_FAIL;
      }
      assert evicted.Some? && cfg.writePolicy != WRITE_THROUGH ==> probed == MISS;
      QueueWriteBack(evicted);
      status := MISS;
    }

    method WriteMissFetchOnWrite(mf: MemFetch, idx: nat, time: nat) returns (status: RequestStatus)
      requires Valid() && InTime() && idx < |tags.lines| && WrMissFetchOnWrite(cfg, State(), mf, idx, time).Some?
      modifies this, tags, tags.lines, mshrs
      ensures Valid() && WrMissFetchOnWrite(cfg, old(State()), mf, idx, time) == Some(Outcome(State(), status))
    {
      hide SendWriteBack, MshrAccepts, AllocateFetch, TagArray.Contents, TagAccess, WriteInto, SendRead,
           ReadAfterWritePending;
      if |mf.bytes| == cfg.AtomSize() {
        status := WriteWholeSector(mf, idx, time);
      } else {
        var a := cfg.MshrAddr(mf.addr);
        var room := MshrRoom(a);
        if QueueFull(1) || !room {
          return RESERVATION_FAIL;
        }
        if mshrs.Probe(a) {
          var pendingRead := mshrs.IsReadAfterWritePending(a);
          if pendingRead && mf.isWrite {
            return RESERVATION_FAIL;
          }
        }
        status := FetchForWrite(mf, idx, time);
      }
    }

    // FETCH_ON_WRITE, all bytes of the sector written: no fetch is needed
    method WriteWholeSector(mf: MemFetch, idx: nat, time: nat) returns (status: RequestStatus)
      requires Valid() && InTime() && idx < |tags.lines| && |mf.bytes| == cfg.AtomSize()
      requires WrMissFetchOnWrite(cfg, State(), mf, idx, time).Some?
      modifies this`missQueue, tags, tags.lines
      ensures Valid() && WrMissFetchOnWrite(cfg, old(State()), mf, idx, time) == Some(Outcome(State(), status))
    {
      hide SendWriteBack, TagArray.Contents, TagAccess, WriteInto, SendRead;
      if QueueFull(0) {
        return RESERVATION_FAIL;
      }
      var tagStatus, i, evicted := TagArrayAccess(idx, mf, time);
      assert tagStatus != HIT;
      MarkModified(i, mf);
      if tagStatus == RESERVATION_FAIL {
        return RESERVATION_FAIL;
      }
      QueueWriteBack(evicted);
      status := MISS;
    }

    // FETCH_ON_WRITE, part of the sector written: fetch the rest
    method FetchForWrite(mf: MemFetch, idx: nat, time: nat) returns (status: RequestStatus)
      requires Valid() && InTime() && idx < |tags.lines|
      requires FetchAndMark(cfg, State(), mf, idx, time).Some?
      modifies this, tags, tags.lines, mshrs
      ensures Valid() && FetchAndMark(cfg, old(State()), mf, idx, time) == Some(Outcome(State(), status))
    {
      hide SendWriteBack, AllocateFetch, TagArray.Contents, SendRead;
      var fetch := NewFetch(mf);
      var doMiss, evicted := SendReadRequest(fetch, idx, time);
      MarkOnFill(idx, mf);
      if !doMiss {
        return RESERVATION_FAIL;
      }
      QueueWriteBack(evicted);
      status := MISS;
    }

    // the fill to come will mark the sector modified and its bytes dirty
    method MarkOnFill(idx: nat, mf: MemFetch)
      requires Valid() && idx < |tags.lines|
      modifies tags.lines
      ensures Valid()
      ensures var t := old(State()).tags;
              State() == old(State()).(tags := OnLine(t, idx,
                t.lines[idx].SetModifiedOnFill(true, cfg.SectorOf(mf)).SetByteMaskOnFill(true)))
    {
      var block := tags.lines[idx];
      assert block.Value() == tags.Contents()[idx];
      block.SetModifiedOnFill(true, cfg.SectorOf(mf));
      block.SetByteMaskOnFill(true);
      tags.ChangedAt(idx);
    }

    method WriteMissLazy(mf: MemFetch, idx: nat, time: nat) returns (status: RequestStatus)
      requires Valid() && InTime() && idx < |tags.lines| && WrMissLazy(cfg, State(), mf, idx, time).Some?
      modifies this`missQueue, tags, tags.lines
      ensures Valid() && WrMissLazy(cfg, old(State()), mf, idx, time) == Some(Outcome(State(), status))
    {
      hide SendWriteBack, TagArray.Contents, TagAccess, LazyWrite;
      if QueueFull(0) {
        return RESERVATION_FAIL;
      }
      if cfg.writePolicy == WRITE_THROUGH {
        SendWriteRequest(mf);
      }
      var tagStatus, i, evicted := TagArrayAccess(idx, mf, time);
      assert tagStatus != HIT;
      WriteLazily(i, mf, tagStatus);
      if tagStatus == RESERVATION_FAIL {
        return RESERVATION_FAIL;
      }
      QueueWriteBack(evicted);
      status := MISS;
    }

    method WriteLazily(idx: nat, mf: MemFetch, tagStatus: RequestStatus)
      requires Valid() && idx < |tags.lines|
      modifies tags, tags.lines
      ensures Valid() && State() == old(State()).(tags := LazyWrite(cfg, old(State()).tags, idx, mf, tagStatus))
    {
      hide UpdateReadable, LazyFlags, TagArray.Contents;
      MarkModified(idx, mf);
      SetLazyFlags(idx, mf, tagStatus);
      UpdateReadability(idx, mf);
    }

    method SetLazyFlags(idx: nat, mf: MemFetch, tagStatus: RequestStatus)
      requires Valid() && idx < |tags.lines|
      modifies tags.lines
      ensures Valid()
      ensures var t := old(State()).tags;
              State() == old(State()).(tags := OnLine(t, idx, LazyFlags(cfg, t.lines[idx], mf, tagStatus)))
    {
      var (block, sec) := (tags.lines[idx], cfg.SectorOf(mf));
      assert block.Value() == tags.Contents()[idx];
      if tagStatus == HIT_RESERVED {
        block.SetModifiedOnFill(true, sec);
        block.SetByteMaskOnFill(true);
      }
      if |mf.bytes| == cfg.AtomSize() {
        block.SetReadable(true, sec);
      } else {
        block.SetReadable(false, sec);
        if tagStatus == HIT_RESERVED {
          block.SetReadableOnFill(true, sec);
        }
      }
      tags.ChangedAt(idx);
    }

    method WriteMissNoAllocate(mf: MemFetch) returns (status: RequestStatus)
      requires Valid()
      modifies this`missQueue
      ensures Valid() && WrMissNoAllocate(cfg, old(State()), mf) == Some(Outcome(State(), status))
    {
      if QueueFull(0) {
        return RESERVATION_FAIL;
      }
      SendWriteRequest(mf);
      status := MISS;
    }

    // the handler the constructor selects for write misses
    method WriteMiss(mf: MemFetch, idx: nat, time: nat, probed: RequestStatus) returns (status: RequestStatus)
      requires Valid() && InTime() && idx < |tags.lines| && WrMiss(cfg, State(), mf, idx, time, probed).Some?
      modifies this, tags, tags.lines, mshrs
      ensures Valid() && WrMiss(cfg, old(State()), mf, idx, time, probed) == Some(Outcome(State(), status))
    {
      hide WrMissNoAllocate, WrMissWriteAllocate, WrMissFetchOnWrite, WrMissLazy, TagArray.Contents;
      match cfg.writeAllocate {
        case NO_WRITE_ALLOCATE => status := WriteMissNoAllocate(mf);
        case WRITE_ALLOCATE => status := WriteMissAllocate(mf, idx, time, probed);
        case FETCH_ON_WRITE => status := WriteMissFetchOnWrite(mf, idx, time);
        case LAZY_FETCH_ON_READ => status := WriteMissLazy(mf, idx, time);
      }
    }

    // ---- reads ----

    method ReadHit(mf: MemFetch, idx: nat, time: nat) returns (status: RequestStatus)
      requires Valid() && InTime() && idx < |tags.lines| && RdHit(cfg, State(), mf, idx, time).Some?
      modifies tags, tags.lines
      ensures Valid() && RdHit(cfg, old(State()), mf, idx, time) == Some(Outcome(State(), status))
    {
      hide TagArray.Contents;
      var _, _, evicted := TagArrayAccess(idx, mf, time);
      assert evicted.None?;
      status := HIT;
    }

    method ReadMiss(mf: MemFetch, idx: nat, time: nat) returns (status: RequestStatus)
      requires Valid() && InTime() && idx < |tags.lines| && RdMiss(cfg, State(), mf, idx, time).Some?
      modifies this, tags, tags.lines, mshrs
      ensures Valid() && RdMiss(cfg, old(State()), mf, idx, time) == Some(Outcome(State(), status))
    {
      hide SendRead, SendWriteBack, TagArray.Contents;
      if QueueFull(1) {
        return RESERVATION_FAIL;
      }
      var doMiss, evicted := SendReadRequest(mf, idx, time);
      if !doMiss {
        return RESERVATION_FAIL;
      }
      QueueWriteBack(evicted);
      status := MISS;
    }
  
    // ---- access ----

    method ProcessTagProbe(mf: MemFetch, time: nat, probed: RequestStatus, idx: nat) returns (status: RequestStatus)
      requires Valid() && InTime() && idx < |tags.lines|
      requires Dispatch(cfg, State(), mf, time, ProbeResult(probed, idx)).Some?
      modifies this, tags, tags.lines, mshrs
      ensures Valid() && Dispatch(cfg, old(State()), mf, time, ProbeResult(probed, idx))
              == Some(Outcome(State(), status))
    {
      hide WrHit, WrMiss, RdHit, RdMiss, TagArray.Contents;
      status := RESERVATION_FAIL;
      if mf.isWrite {
        if probed == HIT {
          status := WriteHit(mf, idx, time);
        } else if probed != RESERVATION_FAIL || cfg.writeAllocate == NO_WRITE_ALLOCATE {
          status := WriteMiss(mf, idx, time, probed);
        }
      } else {
        if probed == HIT {
          status := ReadHit(mf, idx, time);
        } else if probed != RESERVATION_FAIL {
          status := ReadMiss(mf, idx, time);
        }
      }
    }

    method DataCacheAccess(mf: MemFetch, time: nat) returns (status: RequestStatus)
      requires Valid() && InTime() && DataAccess(cfg, State(), mf, time).Some?
      modifies this, tags, tags.lines, mshrs
      ensures Valid() && DataAccess(cfg, old(State()), mf, time) == Some(Outcome(State(), status))
    {
      hide Dispatch, TagArray.Contents, ProbeTags;
      var probed, idx := tags.Probe(cfg.BlockAddr(mf.addr), cfg.SectorOf(mf), mf.isWrite);
      if probed == HIT && |hitQueue| >= cfg.hitQueueSize {
        return RESERVATION_FAIL;
      }
      status := ProcessTagProbe(mf, time, probed, idx);
      if probed == HIT && status == HIT {
        EnqueueResponse(mf, idx);
      }
    }

    method ReadOnlyCacheAccess(mf: MemFetch, time: nat) returns (status: RequestStatus)
      requires Valid() && InTime() && ReadOnlyAccess(cfg, State(), mf, time).Some?
      modifies this, tags, tags.lines, mshrs
      ensures Valid() && ReadOnlyAccess(cfg, old(State()), mf, time) == Some(Outcome(State(), status))
    {
      hide TagArray.Contents, ProbeTags, TagAccess, SendRead;
      var probed, idx := tags.Probe(cfg.BlockAddr(mf.addr), cfg.SectorOf(mf), mf.isWrite);
      status := RESERVATION_FAIL;
      if probed == HIT {
        if |hitQueue| < cfg.hitQueueSize {
          var tagStatus, _, evicted := TagArrayAccess(idx, mf, time);
          assert evicted.None?;
          status := tagStatus;
          if status == HIT {
            EnqueueResponse(mf, idx);
          }
        }
      } else if probed != RESERVATION_FAIL && !QueueFull(0) {
        var doMiss, _ := SendReadRequest(mf, idx, time);
        status := if doMiss then MISS else RESERVATION_FAIL;
      }
    }

    /** access() under any policies: a request that does not meet the one failing
        case makes no assertion fail, and the invariants are kept. */
    method Access(mf: MemFetch, time: nat) returns (status: RequestStatus)
      requires Valid() && CoreInv(cfg, State()) && Presentable(cfg, State(), mf, time) && !Fails(cfg, State(), mf)
      modifies this, tags, tags.lines, mshrs
      ensures Valid() && CoreInv(cfg, State()) && (old(CacheInv(cfg, State())) ==> CacheInv(cfg, State()))
      ensures CacheAccess(cfg, old(State()), mf, time) == Some(Outcome(State(), status))
    {
      hide CoreInv, CacheInv, DataAccess, ReadOnlyAccess, TagArray.Contents;
      AccessFailsExactlyWhen(cfg, State(), mf, time);
      if CacheInv(cfg, State()) {
        AccessKeepsInv(cfg, State(), mf, time);
      }
      InvIsInTime(cfg, State());
      assert mf.dataSize <= cfg.AtomSize();
      if cfg.writePolicy == READ_ONLY {
        assert !mf.isWrite;
        status := ReadOnlyCacheAccess(mf, time);
      } else {
        status := DataCacheAccess(mf, time);
      }
    }

    // ---- cycle, fill, next_access ----

    // one turn of the loop over the delayed hit responses, at position i of the queue
    method TickHit(i: nat, ghost all: seq<HitEntry>, ghost before: seq<MemFetch>, ghost done: nat) returns (next: nat)
      requires Ticked(i, all, before, done) && i < |hitQueue| && HitsTicking(all)
      modifies this`hitQueue, this`readyQueue
      ensures Ticked(next, all, before, done + 1)
    {
      var e := hitQueue[i];
      assert e == all[done] && all[done..][1..] == all[done + 1..];
      var rest := hitQueue[i + 1..];
      assert rest == all[done + 1..];
      if e.remaining - 1 == 0 {
        readyQueue := readyQueue + [e.mf];
        hitQueue := hitQueue[..i] + rest;
        next := i;
      } else {
        hitQueue := hitQueue[..i] + [HitEntry(e.mf, e.remaining - 1)] + rest;
        next := i + 1;
      }
    }

    // after done turns, the queue holds i waiting responses and then those not yet looked at
    ghost predicate Ticked(i: nat, all: seq<HitEntry>, before: seq<MemFetch>, done: nat)
      reads this`hitQueue, this`readyQueue
    {
      && i <= |hitQueue| && done <= |all| && hitQueue[i..] == all[done..]
      && hitQueue[..i] + StillWaiting(all[done..]) == StillWaiting(all)
      && readyQueue + Expired(all[done..]) == before + Expired(all)
    }

    method TickHits()
      requires Valid() && HitsTicking(hitQueue)
      modifies this`hitQueue, this`readyQueue
      ensures Valid()
      ensures hitQueue == StillWaiting(old(hitQueue)) && readyQueue == old(readyQueue) + Expired(old(hitQueue))
    {
      ghost var (all, before) := (hitQueue, readyQueue);
      var i: nat := 0;
      ghost var done: nat := 0;
      assert all[0..] == all;
      while i < |hitQueue|
        invariant Ticked(i, all, before, done)
        decreases |all| - done
      {
        i := TickHit(i, all, before, done);
        done := done + 1;
      }
      assert all[done..] == [];
    }

    method Cycle(memFull: bool) returns (sent: Option<Packet>)
      requires Valid() && CoreInv(cfg, State())
      modifies this`hitQueue, this`readyQueue, this`missQueue
      ensures Valid() && CoreInv(cfg, State()) && (old(CacheInv(cfg, State())) ==> CacheInv(cfg, State()))
      ensures CacheCycle(old(State()), memFull) == Some(State())
      ensures sent == if old(missQueue) == [] || memFull then None else Some(old(missQueue)[0])
    {
      hide CoreInv, CacheInv, StillWaiting, Expired, TagArray.Contents, TagArray.Valid;
      CycleKeepsCore(cfg, State(), memFull);
      if CacheInv(cfg, State()) {
        CycleKeepsInv(cfg, State(), memFull);
      }
      InvIsTicking(cfg, State());
      sent := None;
      TickHits();
      if missQueue != [] {
        if !memFull {
          sent := Some(missQueue[0]);
          missQueue := missQueue[1..];
        }
      }
    }

    method Fill(mf: MemFetch)
      requires Valid() && CoreInv(cfg, State()) && mf in extra
      modifies this`extra, tags, tags.lines, mshrs
      ensures Valid() && CoreInv(cfg, State()) && (old(CacheInv(cfg, State())) ==> CacheInv(cfg, State()))
      ensures CacheFill(cfg, old(State()), mf) == Some(State())
    {
      hide CoreInv, CacheInv, FillTags, TagArray.Contents;
      FillKeepsCore(cfg, State(), mf);
      if CacheInv(cfg, State()) {
        FillKeepsInv(cfg, State(), mf);
      }
      var e := extra[mf];
      tags.Fill(e.cacheIndex, cfg.SectorOf(mf), mf.bytes);
      mshrs.MarkReady(e.mshrAddr);
      extra := extra - {mf};
    }

    // access_ready
    predicate Ready()
      reads this, mshrs
    {
      readyQueue != [] || mshrs.current != []
    }

    method NextAccess() returns (mf: MemFetch)
      requires Valid() && CoreInv(cfg, State()) && Ready()
      modifies this`readyQueue, this`pending, tags.lines, mshrs
      ensures Valid() && CoreInv(cfg, State()) && (old(CacheInv(cfg, State())) ==> CacheInv(cfg, State()))
      ensures CacheNext(old(State())) == Some(Delivery(State(), mf))
    {
      hide CoreInv, CacheInv, TagArray.Contents, Unpin;
      NextKeepsCore(cfg, State());
      if CacheInv(cfg, State()) {
        NextKeepsInv(cfg, State());
      }
      if readyQueue != [] {
        mf := readyQueue[0];
        readyQueue := readyQueue[1..];
      } else {
        mf := mshrs.NextAccess();
      }
      UnpinResponse(mf);
    }
  }

  lemma InvIsTicking(cfg: Config, s: CacheState)
    requires CoreInv(cfg, s)
    ensures HitsTicking(s.hitQueue)
  {
  }

  lemma InvIsInTime(cfg: Config, s: CacheState)
    requires CoreInv(cfg, s)
    ensures TimesBelowSentinel(s.tags.lines)
  {
  }

  lemma FetchIgnoresQueue(cfg: Config, s: CacheState, mf: MemFetch, q: seq<Packet>)
    ensures AllocateFetch(cfg, s.(missQueue := q), mf) == AllocateFetch(cfg, s, mf)
  {
  }

  lemma WriteHitOnlyTags(cfg: Config, s: CacheState, mf: MemFetch, idx: nat, time: nat)
    requires Sized(cfg, s.tags) && idx < |s.tags.lines| && WrHitWb(cfg, s, mf, idx, time).Some?
    ensures var s' := WrHitWb(cfg, s, mf, idx, time).value.s; s' == s.(tags := s'.tags)
  {
  }
}
