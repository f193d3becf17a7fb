/** Every operation of the read-only and data caches keeps the invariant, and
    none of the assertions of the original fails. */
module CacheSteps {
  import opened CacheTypes
  import opened Options
  import opened TagArrays
  import opened CacheModel
  import opened CacheLines
  import opened CacheAdmission
  import opened CacheInvariant
  import opened CacheReads

  // ---- pins ----

  lemma PinKeepsTags(cfg: Config, tags: Tags, i: nat)
    requires TagsOk(cfg, tags) && i < |tags.lines| && !tags.lines[i].IsInvalidLine()
    ensures TagsOk(cfg, Pin(tags, i))
  {
    hide CountModified;
    assert LineOk(cfg, tags.lines[i], i);
    TagsAfterSameBlock(cfg, tags, i, tags.lines[i].Pin(), tags.dirty);
  }

  lemma PinKeepsHold(cfg: Config, lines: seq<Block>, pending: map<MemFetch, nat>, mf: MemFetch, i: nat)
    requires cfg.lineSize > 0 && PinsHold(cfg, lines, pending) && i < |lines| && WellFormed(cfg, mf)
    requires Holds(lines[i], cfg.BlockAddr(mf.addr))
    ensures PinsHold(cfg, lines[i := lines[i].Pin()], pending[mf := i])
  {
  }

  lemma PinKeepsClean(cfg: Config, lines: seq<Block>, i: nat, b: Block)
    requires Clean(lines) && i < |lines|
    requires forall sec: SectorId :: b.sectors[sec].status != MODIFIED && !b.sectors[sec].modifiedOnFill
    ensures Clean(lines[i := b])
  {
  }

  lemma InvIsSized(cfg: Config, s: CacheState)
    requires CacheInv(cfg, s)
    ensures Sized(cfg, s.tags) && cfg.Valid() && TagsOk(cfg, s.tags) && IdsUsed(s.pending, s.nextId)
  {
  }

  // ---- reads that miss ----

  ghost predicate ReadAdmitted(cfg: Config, s: CacheState, mf: MemFetch, idx: nat)
    requires cfg.lineSize > 0 && Sized(cfg, s.tags)
  {
    && WellFormed(cfg, mf) && mf !in s.pending && !mf.isWrite && (mf.id.Allocated? ==> mf.id.n < s.nextId)
    && idx == ProbeFor(cfg, s, mf).idx
    && ProbeFor(cfg, s, mf).status != HIT && ProbeFor(cfg, s, mf).status != RESERVATION_FAIL
    && MshrAccepts(cfg, s, cfg.MshrAddr(mf.addr)) && |s.missQueue| < cfg.missQueueSize
  }

  // the line part of a read that misses
  lemma ReadKeepsLines(cfg: Config, s: CacheState, mf: MemFetch, idx: nat, time: nat)
    requires CacheInv(cfg, s) && ReadAdmitted(cfg, s, mf, idx) && time < TIME_SENTINEL
    ensures TagAccess(cfg, s.tags, idx, mf, time).Some?
    ensures var r := TagAccess(cfg, s.tags, idx, mf, time).value;
            && r.idx == idx && r.status == ProbeFor(cfg, s, mf).status
            && Accessed(cfg, s.tags, mf, time, r) && ReadAccessed(cfg, s.tags, mf, r)
            && TagsOk(cfg, Pin(r.tags, idx))
            && PinsExact(Pin(r.tags, idx).lines, s.pending[mf := idx])
            && PinsHold(cfg, Pin(r.tags, idx).lines, s.pending[mf := idx])
  {
    hide Config.MshrAddr, WellFormed, Accounted, MshrsOk, SectorsOk, TagAccess, ProbeTags, Accessed, TagsOk,
         PinsExact, PinsHold, Clean;
    InvIsSized(cfg, s);
    AccessKeepsTags(cfg, s.tags, idx, mf, time);
    var r := TagAccess(cfg, s.tags, idx, mf, time).value;
    if r.status == HIT_RESERVED {
      ReservedAccessesLine(cfg, s, mf, time, r);
    } else {
      MissAccessesLine(cfg, s.tags, mf, time, r);
    }
    SafeUpdateKeepsPins(cfg, s.tags.lines, s.pending, idx, r.tags.lines[idx]);
    PinKeepsTags(cfg, r.tags, idx);
    PinAdds(r.tags.lines, s.pending, mf, idx);
    PinKeepsHold(cfg, r.tags.lines, s.pending, mf, idx);
  }

  lemma ReadKeepsTable(cfg: Config, s: CacheState, mf: MemFetch, idx: nat, r: AccessResult)
    requires CacheInv(cfg, s) && ReadAdmitted(cfg, s, mf, idx)
    requires r.idx == idx && ReadAccessed(cfg, s.tags, mf, r)
    ensures var (a, pending') := (cfg.MshrAddr(mf.addr), s.pending[mf := idx]);
            var extra' := if a in s.mshr then s.extra else s.extra[mf := Extra(a, idx)];
            && MshrsOk(cfg, MshrAdd(s.mshr, a, mf), s.ready, extra', pending')
            && SectorsOk(cfg, Pin(r.tags, idx).lines, MshrAdd(s.mshr, a, mf), s.ready, pending')
            && MshrWithinCapacity(cfg, MshrAdd(s.mshr, a, mf))
  {
    hide Config.MshrAddr, WellFormed, Accounted, MshrsOk, SectorsOk, TagsOk, PinsExact, PinsHold, Clean, ProbeFor,
         ReadLine, Holds;
    var a := cfg.MshrAddr(mf.addr);
    ProbeTellsEntry(cfg, s, mf);
    AddKeepsMshrs(cfg, s.mshr, s.ready, s.extra, s.pending, mf, idx);
    AddKeepsCapacity(cfg, s.mshr, a, mf);
    if a in s.mshr {
      EntryIsResident(cfg, s, mf);
    }
    var b' := r.tags.lines[idx].Pin();
    assert Pin(r.tags, idx).lines == s.tags.lines[idx := b'];
    ReadKeepsSectors(cfg, s.tags.lines, s.mshr, s.ready, s.extra, s.pending, mf, idx, b');
  }

  lemma CleanAfterRead(cfg: Config, s: CacheState, mf: MemFetch, time: nat, r: AccessResult)
    requires TagsOk(cfg, s.tags) && Clean(s.tags.lines) && r.idx < |s.tags.lines| && Accessed(cfg, s.tags, mf, time, r)
    requires r.status != RESERVATION_FAIL
    ensures r.evicted.None? && Clean(Pin(r.tags, r.idx).lines)
  {
    hide TagsOk;
    var b := s.tags.lines[r.idx];
    assert forall sec: SectorId :: b.sectors[sec].status != MODIFIED && !b.sectors[sec].modifiedOnFill;
    assert !b.IsModifiedLine();
    PinKeepsClean(cfg, s.tags.lines, r.idx, r.tags.lines[r.idx].Pin());
  }

  function AfterRead(cfg: Config, s: CacheState, mf: MemFetch, idx: nat, tags: Tags): CacheState
    requires cfg.lineSize > 0 && idx < |tags.lines|
  {
    var a := cfg.MshrAddr(mf.addr);
    s.(tags := Pin(tags, idx), mshr := MshrAdd(s.mshr, a, mf), pending := s.pending[mf := idx],
       extra := if a in s.mshr then s.extra else s.extra[mf := Extra(a, idx)],
       missQueue := if a in s.mshr then s.missQueue else s.missQueue + [ReadPacket(mf, a)])
  }

  lemma SendReadValue(cfg: Config, s: CacheState, mf: MemFetch, idx: nat, time: nat)
    requires Sized(cfg, s.tags) && idx < |s.tags.lines| && MshrAccepts(cfg, s, cfg.MshrAddr(mf.addr))
    requires TagAccess(cfg, s.tags, idx, mf, time).Some? && TagAccess(cfg, s.tags, idx, mf, time).value.idx == idx
    requires cfg.writePolicy == READ_ONLY ==> TagAccess(cfg, s.tags, idx, mf, time).value.evicted.None?
    requires MshrWithinCapacity(cfg, MshrAdd(s.mshr, cfg.MshrAddr(mf.addr), mf))
    ensures var r := TagAccess(cfg, s.tags, idx, mf, time).value;
            SendRead(cfg, s, mf, idx, time) == Some(ReadSent(AfterRead(cfg, s, mf, idx, r.tags), true, r.evicted))
  {
    hide TagAccess, Config.MshrAddr, Sized, Pin;
  }

  /** An admitted read is sent or merged, and the invariant holds afterwards. */
  lemma SendReadKeepsInv(cfg: Config, s: CacheState, mf: MemFetch, idx: nat, time: nat)
    requires CacheInv(cfg, s) && ReadAdmitted(cfg, s, mf, idx) && time < TIME_SENTINEL
    ensures SendRead(cfg, s, mf, idx, time).Some?
    ensures var r := SendRead(cfg, s, mf, idx, time).value;
            && r.doMiss && CacheInv(cfg, r.s)
            && (r.evicted.Some? ==> ProbeFor(cfg, s, mf).status == MISS && cfg.writePolicy != READ_ONLY)
  {
    hide Config.MshrAddr, WellFormed, MshrsOk, SectorsOk, TagAccess, ProbeFor, TagsOk, PinsExact, PinsHold, Clean,
         Holds, ReadAccessed, Sized, Places, SendRead, MshrAdd, Pin, MshrAccepts, MshrWithinCapacity;
    InvIsSized(cfg, s);
    ReadKeepsLines(cfg, s, mf, idx, time);
    var r := TagAccess(cfg, s.tags, idx, mf, time).value;
    ReadKeepsTable(cfg, s, mf, idx, r);
    SendKeepsAccounts(cfg, s, mf, idx);
    if cfg.writePolicy == READ_ONLY {
      CleanAfterRead(cfg, s, mf, time, r);
    }
    SendReadValue(cfg, s, mf, idx, time);
    SameAccounts(cfg, s.(mshr := MshrAdd(s.mshr, cfg.MshrAddr(mf.addr), mf), pending := s.pending[mf := idx]),
                 AfterRead(cfg, s, mf, idx, r.tags));
  }

  lemma SameAccounts(cfg: Config, s: CacheState, s': CacheState)
    requires cfg.lineSize > 0 && Accounted(cfg, s)
    requires s'.hitQueue == s.hitQueue && s'.readyQueue == s.readyQueue && s'.mshr == s.mshr && s'.pending == s.pending
    ensures Accounted(cfg, s')
  {
    hide Config.MshrAddr;
    forall mf
      ensures Places(cfg, s', mf) == if mf in s'.pending then 1 else 0
    {
      assert Places(cfg, s, mf) == Places(cfg, s', mf);
    }
  }

  // ---- updates of one line ----

  /** Changing one line in a way its pins and entries allow keeps the invariant. */
  lemma LineUpdateKeepsInv(cfg: Config, s: CacheState, tags': Tags, i: nat, b: Block)
    requires CacheInv(cfg, s) && i < |s.tags.lines| && tags'.lines == s.tags.lines[i := b]
    requires TagsOk(cfg, tags') && SafeUpdate(s.tags.lines, i, b) && SafeSectors(s.tags.lines, i, b)
    requires cfg.writePolicy == READ_ONLY ==> Clean(tags'.lines)
    ensures CacheInv(cfg, s.(tags := tags'))
  {
    hide Config.MshrAddr, WellFormed, MshrsOk, SectorsOk, TagsOk, PinsExact, PinsHold, Clean, Holds, Sized, Places,
         SafeUpdate, SafeSectors, MshrWithinCapacity;
    InvIsSized(cfg, s);
    SafeUpdateKeepsPins(cfg, s.tags.lines, s.pending, i, b);
    SafeSectorsKept(cfg, s.tags.lines, s.mshr, s.ready, s.pending, i, b);
    SameAccounts(cfg, s, s.(tags := tags'));
  }

  lemma TouchKeepsInv(cfg: Config, s: CacheState, mf: MemFetch, time: nat, r: AccessResult)
    requires CacheInv(cfg, s) && r.idx < |s.tags.lines| && Accessed(cfg, s.tags, mf, time, r) && TagsOk(cfg, r.tags)
    requires r.status == HIT
    ensures CacheInv(cfg, s.(tags := r.tags)) && Holds(r.tags.lines[r.idx], cfg.BlockAddr(mf.addr))
  {
    hide MshrsOk, SectorsOk, TagsOk, PinsExact, PinsHold, Sized, Places, Config.BlockAddr;
    var b := s.tags.lines[r.idx];
    if cfg.writePolicy == READ_ONLY {
      assert forall sec: SectorId :: b.sectors[sec].status != MODIFIED && !b.sectors[sec].modifiedOnFill;
      PinKeepsClean(cfg, s.tags.lines, r.idx, b.Touch(time));
    }
    LineUpdateKeepsInv(cfg, s, r.tags, r.idx, b.Touch(time));
  }

  // ---- hit responses ----

  lemma MorePendingKeepsMshrs(cfg: Config, mshr: MshrTable, ready: seq<nat>, extra: map<MemFetch, Extra>,
                              pending: map<MemFetch, nat>, mf: MemFetch, i: nat)
    requires cfg.lineSize > 0 && MshrsOk(cfg, mshr, ready, extra, pending) && mf !in pending
    ensures MshrsOk(cfg, mshr, ready, extra, pending[mf := i])
  {
    hide Config.MshrAddr;
    var pending' := pending[mf := i];
    forall a, k | a in mshr && 0 <= k < |mshr[a]|
      ensures IsMember(cfg, mshr[a][k], a, pending')
    {
      assert IsMember(cfg, mshr[a][k], a, pending);
    }
    forall f | f in extra
      ensures OwnsEntry(cfg, mshr, ready, f, extra[f], pending')
    {
      assert OwnsEntry(cfg, mshr, ready, f, extra[f], pending);
    }
  }

  lemma MorePendingKeepsSectors(cfg: Config, lines: seq<Block>, mshr: MshrTable, ready: seq<nat>,
                                pending: map<MemFetch, nat>, mf: MemFetch, i: nat)
    requires SectorsOk(cfg, lines, mshr, ready, pending) && mf !in pending
    ensures SectorsOk(cfg, lines, mshr, ready, pending[mf := i])
  {
    forall a | a in mshr
      ensures EntrySector(cfg, lines, mshr, ready, pending[mf := i], a)
    {
      assert EntrySector(cfg, lines, mshr, ready, pending, a);
    }
  }

  lemma EnqueueKeepsAccounts(cfg: Config, s: CacheState, mf: MemFetch, i: nat)
    requires cfg.lineSize > 0 && cfg.portWidth > 0 && Accounted(cfg, s) && mf !in s.pending && i < |s.tags.lines|
    ensures Accounted(cfg, EnqueueHitResponse(cfg, s, mf, i))
  {
    hide Config.MshrAddr, HitLatency, Pin;
    var s' := EnqueueHitResponse(cfg, s, mf, i);
    assert Waiting(s'.hitQueue) == Waiting(s.hitQueue) + [mf];
    forall r
      ensures Places(cfg, s', r) == if r in s'.pending then 1 else 0
    {
      assert Places(cfg, s, r) == if r in s.pending then 1 else 0;
    }
  }

  lemma EnqueueKeepsInv(cfg: Config, s: CacheState, mf: MemFetch, i: nat)
    requires CacheInv(cfg, s) && i < |s.tags.lines| && WellFormed(cfg, mf) && mf !in s.pending && mf.id.Client?
    requires Holds(s.tags.lines[i], cfg.BlockAddr(mf.addr)) && !HitQueueFull(cfg, s)
    ensures CacheInv(cfg, EnqueueHitResponse(cfg, s, mf, i))
  {
    hide Config.MshrAddr, Config.BlockAddr, WellFormed, MshrsOk, SectorsOk, TagsOk, PinsExact, PinsHold, Clean, Sized,
         Places, HitLatency, MshrWithinCapacity;
    InvIsSized(cfg, s);
    var b := s.tags.lines[i].Pin();
    PinKeepsTags(cfg, s.tags, i);
    PinAdds(s.tags.lines, s.pending, mf, i);
    PinKeepsHold(cfg, s.tags.lines, s.pending, mf, i);
    MorePendingKeepsMshrs(cfg, s.mshr, s.ready, s.extra, s.pending, mf, i);
    assert SafeSectors(s.tags.lines, i, b);
    SafeSectorsKept(cfg, s.tags.lines, s.mshr, s.ready, s.pending, i, b);
    MorePendingKeepsSectors(cfg, s.tags.lines[i := b], s.mshr, s.ready, s.pending, mf, i);
    EnqueueKeepsAccounts(cfg, s, mf, i);
    LatencyIsPositive(cfg, mf);
    if cfg.writePolicy == READ_ONLY {
      PinIsClean(s.tags.lines, i);
    }
  }

  lemma PinIsClean(lines: seq<Block>, i: nat)
    requires Clean(lines) && i < |lines|
    ensures Clean(lines[i := lines[i].Pin()])
  {
  }

  lemma LatencyIsPositive(cfg: Config, mf: MemFetch)
    requires cfg.portWidth > 0
    ensures HitLatency(cfg, mf) > 0
  {
  }

  // ---- queued packets ----

  lemma QueueKeepsInv(cfg: Config, s: CacheState, q: seq<Packet>, nextId: nat)
    requires CacheInv(cfg, s) && |q| <= cfg.missQueueSize && nextId >= s.nextId
    ensures CacheInv(cfg, s.(missQueue := q, nextId := nextId))
  {
    hide Config.MshrAddr, MshrsOk, SectorsOk, TagsOk, PinsExact, PinsHold, Clean, Sized, Places, MshrWithinCapacity;
    SameAccounts(cfg, s, s.(missQueue := q, nextId := nextId));
  }
}
