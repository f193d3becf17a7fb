/** FETCH_ON_WRITE, WRITE_EVICT and LOCAL_WB_GLOBAL_WT: exactly when they keep written
    data, the dirty counter and the MSHR entries. */
module CachePolicies {
  import opened CacheTypes
  import opened Options
  import opened TagArrays
  import opened CacheModel
  import opened CacheLines
  import opened CacheInvariant
  import opened CacheReads
  import opened CacheOperations
  import opened CacheEffects
  import opened CacheDurability

  // ---- the dirty counter ----

  // the sector is the only modified one of its line
  predicate OnlyModified(b: Block, sec: SectorId) {
    && b.sectors[sec].status == MODIFIED
    && forall j :: 0 <= j < SECTOR_CHUNK_SIZE && j != sec ==> b.sectors[j].status != MODIFIED
  }

  // a line whose sector sec changes its status only
  lemma OnlyModifiedLost(b: Block, c: Block, sec: SectorId)
    requires c.sectors == b.sectors[sec := c.sectors[sec]] && c.sectors[sec].status != MODIFIED
    ensures OnlyModified(b, sec) <==> b.IsModifiedLine() && !c.IsModifiedLine()
    ensures c.IsModifiedLine() ==> b.IsModifiedLine()
  {
    assert forall j :: 0 <= j < SECTOR_CHUNK_SIZE && j != sec ==> c.sectors[j] == b.sectors[j];
    assert forall j :: 0 <= j < SECTOR_CHUNK_SIZE && b.sectors[j].status == MODIFIED ==> b.IsModifiedLine();
    assert forall j :: 0 <= j < SECTOR_CHUNK_SIZE && c.sectors[j].status == MODIFIED ==> c.IsModifiedLine();
  }

  /** wr_hit_we invalidates the hit sector and never adjusts the dirty counter: the
      counter stays exact unless that sector was the line's only modified one. */
  lemma WriteEvictKeepsCountExactlyWhen(cfg: Config, s: CacheState, mf: MemFetch, idx: nat)
    requires idx < |s.tags.lines| && DirtyExact(s.tags) && !MissQueueFull(cfg, s, 0)
    ensures var o := WrHitWe(cfg, s, mf, idx);
      && o.Some? && o.value.status == HIT
      && (DirtyExact(o.value.s.tags) <==> !OnlyModified(s.tags.lines[idx], cfg.SectorOf(mf)))
  {
    var (b, sec) := (s.tags.lines[idx], cfg.SectorOf(mf));
    CountAfterUpdate(s.tags.lines, idx, b.SetStatus(INVALID, sec));
    OnlyModifiedLost(b, b.SetStatus(INVALID, sec), sec);
  }

  /** tag_array::fill never lowers the counter: it stays exact unless the fill turns
      the line's only modified sector, one without modified-on-fill, into a valid one. */
  lemma FillKeepsCountExactlyWhen(cfg: Config, tags: Tags, idx: nat, sec: SectorId, bytes: set<nat>)
    requires idx < |tags.lines| && DirtyExact(tags)
    ensures var b := tags.lines[idx];
      DirtyExact(FillTags(cfg, tags, idx, sec, bytes)) <==> !(OnlyModified(b, sec) && !b.sectors[sec].modifiedOnFill)
  {
    var b := tags.lines[idx];
    var c := b.Fill(cfg.cacheType, sec, bytes);
    CountAfterUpdate(tags.lines, idx, c);
    if b.sectors[sec].modifiedOnFill {
      assert c.sectors[sec].status == MODIFIED;
      assert c.IsModifiedLine() by {
        assert forall j :: 0 <= j < SECTOR_CHUNK_SIZE && c.sectors[j].status == MODIFIED ==> c.IsModifiedLine();
      }
    } else {
      OnlyModifiedLost(b, c, sec);
    }
  }

  // ---- the MSHR entries ----

  /** A write-evict hit leaves the sectors and MSHR entries consistent if and only if
      the hit sector has no entry, not even one that is ready but not yet collected. */
  lemma WriteEvictKeepsEntriesExactlyWhen(cfg: Config, s: CacheState, mf: MemFetch)
    requires Sized(cfg, s.tags) && LinesOk(cfg, s.tags.lines) && PinsHold(cfg, s.tags.lines, s.pending)
    requires MshrsOk(cfg, s.mshr, s.ready, s.extra, s.pending)
             && SectorsOk(cfg, s.tags.lines, s.mshr, s.ready, s.pending)
    requires WellFormed(cfg, mf) && mf.isWrite && ProbeFor(cfg, s, mf).status == HIT && !MissQueueFull(cfg, s, 0)
    ensures var o := WrHitWe(cfg, s, mf, ProbeFor(cfg, s, mf).idx);
      && o.Some? && o.value.status == HIT
      && (SectorsOk(cfg, o.value.s.tags.lines, s.mshr, s.ready, s.pending) <==> cfg.MshrAddr(mf.addr) !in s.mshr)
  {
    hide ProbeTags, LinesOk, Config.BlockAddr, Config.MshrAddr, WellFormed, MshrsOk, PinsHold, AtomAddr;
    var (a, sec, idx, lines) := (cfg.MshrAddr(mf.addr), cfg.SectorOf(mf), ProbeFor(cfg, s, mf).idx, s.tags.lines);
    var lines' := WrHitWe(cfg, s, mf, idx).value.s.tags.lines;
    if a in s.mshr {
      EntryIsThere(cfg, s, mf, a);
      assert !EntrySector(cfg, lines', s.mshr, s.ready, s.pending, a);
    } else {
      forall e | e in s.mshr
        ensures EntrySector(cfg, lines', s.mshr, s.ready, s.pending, e)
      {
        assert EntrySector(cfg, lines, s.mshr, s.ready, s.pending, e);
        EntryIsElsewhere(cfg, s, mf, e);
      }
      forall i: nat, sec': SectorId | i < |lines'|
        ensures ReservedIsOwned(lines', s.mshr, s.ready, i, sec')
      {
        assert ReservedIsOwned(lines, s.mshr, s.ready, i, sec');
      }
    }
  }

  // the line that a hit finds holds the block
  lemma HitHolds(cfg: Config, s: CacheState, mf: MemFetch)
    requires Sized(cfg, s.tags) && LinesOk(cfg, s.tags.lines) && ProbeFor(cfg, s, mf).status in {HIT, HIT_RESERVED}
    ensures var p := ProbeFor(cfg, s, mf);
      && Holds(s.tags.lines[p.idx], cfg.BlockAddr(mf.addr))
      && p.status == HitStatus(s.tags.lines[p.idx].sectors[cfg.SectorOf(mf)], mf.isWrite)
  {
    hide LinesOk, ProbeTags;
    BlockAddrTwice(cfg, mf.addr);
    ProbeIsRight(cfg, s.tags, cfg.BlockAddr(mf.addr), cfg.SectorOf(mf), mf.isWrite);
  }

  // the entry of the hit sector is that of the line found
  lemma EntryIsThere(cfg: Config, s: CacheState, mf: MemFetch, a: nat)
    requires Sized(cfg, s.tags) && LinesOk(cfg, s.tags.lines) && PinsHold(cfg, s.tags.lines, s.pending)
    requires MshrsOk(cfg, s.mshr, s.ready, s.extra, s.pending) && WellFormed(cfg, mf)
    requires ProbeFor(cfg, s, mf).status == HIT && a in s.mshr && a == cfg.MshrAddr(mf.addr)
    ensures s.mshr[a] != [] && s.mshr[a][0] in s.pending && s.pending[s.mshr[a][0]] == ProbeFor(cfg, s, mf).idx
    ensures cfg.SectorOf(s.mshr[a][0]) == cfg.SectorOf(mf)
  {
    hide ProbeTags, LinesOk, Config.BlockAddr, Config.MshrAddr, WellFormed;
    var r := s.mshr[a][0];
    assert IsMember(cfg, r, a, s.pending);
    SameKeySameSector(cfg, r, mf);
    HitHolds(cfg, s, mf);
    OnlyHolder(cfg, s.tags.lines, s.pending[r], ProbeFor(cfg, s, mf).idx, cfg.BlockAddr(mf.addr));
  }

  // an entry of another address is in another line or another sector
  lemma EntryIsElsewhere(cfg: Config, s: CacheState, mf: MemFetch, e: nat)
    requires Sized(cfg, s.tags) && LinesOk(cfg, s.tags.lines) && PinsHold(cfg, s.tags.lines, s.pending)
    requires MshrsOk(cfg, s.mshr, s.ready, s.extra, s.pending) && WellFormed(cfg, mf)
    requires ProbeFor(cfg, s, mf).status == HIT && e in s.mshr && e != cfg.MshrAddr(mf.addr)
    ensures s.mshr[e] != [] && s.mshr[e][0] in s.pending
    ensures s.pending[s.mshr[e][0]] != ProbeFor(cfg, s, mf).idx || cfg.SectorOf(s.mshr[e][0]) != cfg.SectorOf(mf)
  {
    hide ProbeTags, LinesOk, Config.BlockAddr, Config.MshrAddr, WellFormed;
    var r := s.mshr[e][0];
    assert IsMember(cfg, r, e, s.pending);
    HitHolds(cfg, s, mf);
    MshrAddrIsAtom(cfg, r);
    MshrAddrIsAtom(cfg, mf);
  }

  // ---- stores into a sector whose fetch is outstanding, under FETCH_ON_WRITE ----

  // a search that finds a RESERVED sector only touches its line
  lemma ReservedIsTouched(cfg: Config, tags: Tags, idx: nat, mf: MemFetch, time: nat)
    requires Sized(cfg, tags) && idx < |tags.lines|
    requires ProbeTags(cfg, tags, cfg.BlockAddr(mf.addr), cfg.SectorOf(mf), mf.isWrite)
             == ProbeResult(HIT_RESERVED, idx)
    ensures TagAccess(cfg, tags, idx, mf, time)
            == Some(AccessResult(tags.(lines := tags.lines[idx := tags.lines[idx].Touch(time)]),
                                 HIT_RESERVED, idx, None))
  {
    hide ProbeTags;
  }

  lemma ReadProbesAlike(cfg: Config, tags: Tags, addr: nat, sec: SectorId)
    requires Sized(cfg, tags) && ProbeTags(cfg, tags, addr, sec, true).status == HIT_RESERVED
    ensures ProbeTags(cfg, tags, addr, sec, false) == ProbeTags(cfg, tags, addr, sec, true)
  {
  }

  // what the line of an accepted store becomes
  function FullStore(b: Block, time: nat, sec: SectorId, bytes: set<nat>): Block {
    b.Touch(time).SetStatus(MODIFIED, sec).SetByteMask(bytes)
  }

  function PartialStore(b: Block, time: nat, sec: SectorId): Block {
    b.Touch(time).Pin().SetModifiedOnFill(true, sec).SetByteMaskOnFill(true)
  }

  lemma FullStoreLine(cfg: Config, s: CacheState, mf: MemFetch, idx: nat, time: nat)
    requires Sized(cfg, s.tags) && idx < |s.tags.lines| && ProbeFor(cfg, s, mf) == ProbeResult(HIT_RESERVED, idx)
    requires mf.isWrite && IsFull(cfg, mf) && !MissQueueFull(cfg, s, 0)
    ensures var b := s.tags.lines[idx];
      var tags := Tags(s.tags.lines[idx := FullStore(b, time, cfg.SectorOf(mf), mf.bytes)],
                       if b.IsModifiedLine() then s.tags.dirty else s.tags.dirty + 1);
      WrMissFetchOnWrite(cfg, s, mf, idx, time) == Some(Outcome(s.(tags := tags), MISS))
  {
    hide ProbeTags, TagAccess;
    ProbeAgain(cfg, s, mf);
    ReservedIsTouched(cfg, s.tags, idx, mf, time);
    var b := s.tags.lines[idx];
    assert s.tags.lines[idx := b.Touch(time)][idx := FullStore(b, time, cfg.SectorOf(mf), mf.bytes)]
           == s.tags.lines[idx := FullStore(b, time, cfg.SectorOf(mf), mf.bytes)];
  }

  // the probe of tag_array::access is that of access()
  lemma ProbeAgain(cfg: Config, s: CacheState, mf: MemFetch)
    requires Sized(cfg, s.tags)
    ensures ProbeFor(cfg, s, mf) == ProbeTags(cfg, s.tags, cfg.BlockAddr(mf.addr), cfg.SectorOf(mf), mf.isWrite)
  {
  }

  // a smaller store whose sector has an MSHR entry joins it
  lemma PartialStoreMerges(cfg: Config, s: CacheState, mf: MemFetch, idx: nat, time: nat)
    requires Sized(cfg, s.tags) && idx < |s.tags.lines| && ProbeFor(cfg, s, mf) == ProbeResult(HIT_RESERVED, idx)
    requires mf.isWrite && !IsFull(cfg, mf) && !MissQueueFull(cfg, s, 1) && cfg.writePolicy != READ_ONLY
    requires var a := cfg.MshrAddr(mf.addr);
      a in s.mshr && |s.mshr[a]| < cfg.mshrMaxMerge && |s.mshr| <= cfg.mshrEntries && !ReadAfterWritePending(s.mshr[a])
    ensures var (a, fetch, b) := (cfg.MshrAddr(mf.addr), AllocateFetch(cfg, s, mf), s.tags.lines[idx]);
      WrMissFetchOnWrite(cfg, s, mf, idx, time) == Some(Outcome(
        s.(tags := s.tags.(lines := s.tags.lines[idx := PartialStore(b, time, cfg.SectorOf(mf))]),
           mshr := MshrAdd(s.mshr, a, fetch), pending := s.pending[fetch := idx], nextId := s.nextId + 1), MISS))
  {
    hide ProbeTags, TagAccess, Config.MshrAddr, ReadAfterWritePending;
    ProbeAgain(cfg, s, mf);
    ReadProbesAlike(cfg, s.tags, cfg.BlockAddr(mf.addr), cfg.SectorOf(mf));
    ReservedIsTouched(cfg, s.tags, idx, AllocateFetch(cfg, s, mf), time);
    var (a, fetch, b) := (cfg.MshrAddr(mf.addr), AllocateFetch(cfg, s, mf), s.tags.lines[idx]);
    var w := PartialStore(b, time, cfg.SectorOf(mf));
    assert s.tags.lines[idx := b.Touch(time)][idx := b.Touch(time).Pin()][idx := w] == s.tags.lines[idx := w];
    assert MshrAdd(s.mshr, a, fetch).Keys == s.mshr.Keys;
    assert |MshrAdd(s.mshr, a, fetch)| == |s.mshr|;
  }

  // ---- FETCH_ON_WRITE: a store and then the fill of its sector ----

  // what the fill by r leaves dirty of a store that was not sent down
  predicate Survives(cfg: Config, b: Block, mf: MemFetch, status: RequestStatus, r: MemFetch, k: nat) {
    match status
    case HIT => b.sectors[cfg.SectorOf(mf)].modifiedOnFill
    case HIT_RESERVED =>
      if IsFull(cfg, mf) then b.sectors[cfg.SectorOf(mf)].modifiedOnFill else k in b.dirtyBytes || k in r.bytes
    case SECTOR_MISS => !IsFull(cfg, mf) && (k in b.dirtyBytes || k in r.bytes)
    case MISS => !IsFull(cfg, mf) && ((cfg.cacheType == NORMAL && k in b.dirtyBytes) || k in r.bytes)
    case RESERVATION_FAIL => false
  }

  /** An accepted FETCH_ON_WRITE store, whatever its probe said, and then a fill of its
      sector.  A packet carries the store exactly if it hits in a cache that writes
      through or evicts on hits.  Otherwise a byte of it is dirty after the fill if and
      only if: after a hit, or a store of the whole sector into a RESERVED one,
      modified-on-fill had been set before it; after a smaller store, the byte was marked
      dirty before or is one of the bytes of the filling fetch. */
  lemma StoreSurvivesFillExactlyWhen(cfg: Config, s: CacheState, mf: MemFetch, time: nat, r: MemFetch, k: nat)
    requires Sized(cfg, s.tags) && LinesOk(cfg, s.tags.lines) && WellFormed(cfg, mf) && k in mf.bytes && mf.isWrite
    requires cfg.writePolicy != READ_ONLY && cfg.writeAllocate == FETCH_ON_WRITE
    requires CacheAccess(cfg, s, mf, time).Some? && CacheAccess(cfg, s, mf, time).value.status != RESERVATION_FAIL
    requires var stored := CacheAccess(cfg, s, mf, time).value.s;
      && CacheFill(cfg, stored, r).Some? && cfg.SectorOf(r) == cfg.SectorOf(mf)
      && stored.extra[r].cacheIndex == ProbeFor(cfg, s, mf).idx
    ensures var (stored, p) := (CacheAccess(cfg, s, mf, time).value.s, ProbeFor(cfg, s, mf));
      && (Carried(cfg, Added(s, stored), cfg.BlockAddr(mf.addr), k) <==> SendsWrite(cfg, mf, p.status))
      && (!SendsWrite(cfg, mf, p.status) ==>
            (Resident(cfg, CacheFill(cfg, stored, r).value.tags.lines, cfg.BlockAddr(mf.addr), k)
             <==> Survives(cfg, s.tags.lines[p.idx], mf, p.status, r, k)))
  {
    hide ProbeFor, LinesOk, Config.BlockAddr, WellFormed, CacheAccess, AccessedLine, AccessPackets, Resident, Survives,
         SendsWrite, Block.Fill, Recorded, Carried;
    var (stored, p, block) := (CacheAccess(cfg, s, mf, time).value.s, ProbeFor(cfg, s, mf), cfg.BlockAddr(mf.addr));
    AcceptedEffect(cfg, s, mf, time);
    AcceptedIsFound(cfg, s, mf, time);
    StoreIsCarried(cfg, s, mf, p, k);
    if !SendsWrite(cfg, mf, p.status) {
      var b := s.tags.lines[p.idx];
      var w := AccessedLine(cfg, b, mf, p.status, time);
      var filled := w.Fill(cfg.cacheType, cfg.SectorOf(mf), r.bytes);
      ProbeNames(cfg, s, mf);
      OthersLackBlock(cfg, s, mf);
      ByteIsInSector(cfg, mf, k);
      StoredTag(cfg, b, mf, p.status, time);
      FilledStore(cfg, b, mf, p.status, time, r, k);
      OnlyLineMatters(cfg, s.tags.lines, p.idx, block, filled, k);
      assert CacheFill(cfg, stored, r).value.tags.lines == s.tags.lines[p.idx := filled];
    }
  }

  // no line but the one the probe names holds the block
  lemma OthersLackBlock(cfg: Config, s: CacheState, mf: MemFetch)
    requires Sized(cfg, s.tags) && LinesOk(cfg, s.tags.lines)
    ensures var (p, block) := (ProbeFor(cfg, s, mf), cfg.BlockAddr(mf.addr));
      && (forall j :: 0 <= j < |s.tags.lines| && j != p.idx ==> !Holds(s.tags.lines[j], block))
      && (p.status in {MISS, RESERVATION_FAIL} ==> !Holds(s.tags.lines[p.idx], block))
  {
    hide ProbeTags, LinesOk, Holds;
    var p := ProbeFor(cfg, s, mf);
    BlockAddrTwice(cfg, mf.addr);
    ProbeIsRight(cfg, s.tags, cfg.BlockAddr(mf.addr), cfg.SectorOf(mf), mf.isWrite);
    if p.status !in {MISS, RESERVATION_FAIL} {
      OthersHoldNone(cfg, s.tags.lines, p.idx, cfg.BlockAddr(mf.addr));
    }
  }

  lemma StoreIsCarried(cfg: Config, s: CacheState, mf: MemFetch, p: ProbeResult, k: nat)
    requires Sized(cfg, s.tags) && LinesOk(cfg, s.tags.lines) && p == ProbeFor(cfg, s, mf) && k in mf.bytes
    ensures Carried(cfg, AccessPackets(cfg, s, mf, p), cfg.BlockAddr(mf.addr), k) <==> SendsWrite(cfg, mf, p.status)
  {
    hide ProbeFor, LinesOk, Config.BlockAddr, AccessPackets, SendsWrite, FetchPackets;
    PacketsAre(cfg, s, mf, p);
    OthersLackBlock(cfg, s, mf);
    LineIsOk(cfg, s.tags.lines, p.idx);
    if SendsWrite(cfg, mf, p.status) {
      CarriedIn(cfg, AccessPackets(cfg, s, mf, p), WritePacket(mf), cfg.BlockAddr(mf.addr), k);
    } else {
      var b := s.tags.lines[p.idx];
      assert b.IsModifiedLine() ==> !b.IsInvalidLine();
    }
  }

  lemma LineIsOk(cfg: Config, lines: seq<Block>, i: nat)
    requires cfg.lineSize > 0 && LinesOk(cfg, lines) && i < |lines|
    ensures LineOk(cfg, lines[i], i)
  {
  }

  lemma FilledStore(cfg: Config, b: Block, mf: MemFetch, status: RequestStatus, time: nat, r: MemFetch, k: nat)
    requires cfg.lineSize > 0 && cfg.writeAllocate == FETCH_ON_WRITE && status != RESERVATION_FAIL
    requires mf.isWrite && k in mf.bytes && !SendsWrite(cfg, mf, status) && cfg.SectorOf(r) == cfg.SectorOf(mf)
    requires ByteSector(cfg, k) == cfg.SectorOf(mf) && k < SECTOR_SIZE * SECTOR_CHUNK_SIZE
    requires status != MISS ==> status == HitStatus(b.sectors[cfg.SectorOf(mf)], true)
    ensures var w := AccessedLine(cfg, b, mf, status, time);
      && (DirtyAt(cfg, w.Fill(cfg.cacheType, cfg.SectorOf(mf), r.bytes), k) <==> Survives(cfg, b, mf, status, r, k))
      && w.Fill(cfg.cacheType, cfg.SectorOf(mf), r.bytes).tag == w.tag
  {
    hide UpdateReadable;
    UpdateReadableOnly(cfg, Written(cfg, b.Touch(time), mf), mf);
  }
}
