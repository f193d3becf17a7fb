/** What is written back: a block that loses its line is written back exactly if a store was
    left in it, and the write-back names the sectors and bytes that stores left. */
module CacheWriteBacks {
  import opened CacheTypes
  import opened TagArrays
  import opened CacheModel
  import opened CacheLines
  import opened CacheInvariant
  import opened CacheSteps
  import opened CacheOperations
  import opened CacheEffects
  import opened CacheDurability
  import opened CacheRuns
  import opened CacheGuarantees
  import opened CacheReadability

  // ---- one line ----

  ghost predicate SectorsTell(b: Block, d: Data) {
    forall sec: SectorId :: b.sectors[sec].status == MODIFIED <==> sec in d.stored
  }

  // a line nobody waits for
  lemma IdleSectorsTell(cfg: Config, b: Block, d: Data)
    requires LineTells(cfg, b, d) && !b.IsReservedLine()
    ensures SectorsTell(b, d)
  {
    forall sec: SectorId
      ensures b.sectors[sec].status == MODIFIED <==> sec in d.stored
    {
      assert SectorTells(cfg, b, d, sec);
      assert b.sectors[sec].status != RESERVED;
    }
  }

  lemma ModifiedIsStored(b: Block, d: Data)
    requires SectorsTell(b, d)
    ensures b.IsModifiedLine() <==> d.stored != {}
    ensures b.DirtySectors(SECTOR) == d.stored
  {
    if sec :| sec in d.stored {
      assert b.sectors[sec].status == MODIFIED;
    }
    forall sec: SectorId
      ensures sec in b.DirtySectors(SECTOR) <==> sec in d.stored
    {
    }
  }

  // the sectors of the stores, their bytes, and those that came with fetches after a merge
  ghost predicate NamesStores(cfg: Config, e: Evicted, d: Data) {
    if cfg.cacheType == SECTOR then
      && e.sectors == d.stored
      && forall sec: SectorId, k :: InSector(k, sec) ==>
           (k in e.bytes <==> k in d.written || k in d.brought)
    else e.sectors == {0, 1, 2, 3}
  }

  lemma EvictedNamesStores(cfg: Config, b: Block, i: nat, d: Data)
    requires cfg.lineSize > 0 && LineOk(cfg, b, i) && LineTells(cfg, b, d) && !b.IsReservedLine() && b.IsModifiedLine()
    ensures NamesStores(cfg, b.EvictedInfo(cfg.cacheType), d)
  {
    IdleSectorsTell(cfg, b, d);
    ModifiedIsStored(b, d);
    forall sec: SectorId, k | InSector(k, sec) && cfg.cacheType == SECTOR
      ensures k in b.dirtyBytes <==> k in d.written || k in d.brought
    {
      assert SectorTells(cfg, b, d, sec);
    }
  }

  // ---- who loses its line ----

  lemma FoundStays(cfg: Config, b: Block, mf: MemFetch, status: RequestStatus, time: nat)
    requires Covered(cfg) && status in {HIT, HIT_RESERVED, SECTOR_MISS} && Holds(b, cfg.BlockAddr(mf.addr))
    requires status == HitStatus(b.sectors[cfg.SectorOf(mf)], mf.isWrite)
    requires mf.isWrite ==> cfg.writePolicy != READ_ONLY
    ensures Holds(AccessedLine(cfg, b, mf, status, time), cfg.BlockAddr(mf.addr))
  {
    hide LazyBlock, UpdateReadable, Config.BlockAddr, Took;
    var t := Took(cfg, b, status, mf, time);
    TookHolds(cfg, b, status, mf, time);
    LazyBlockIsWritten(cfg, t, mf, status);
    UpdateReadableOnly(cfg, Written(cfg, b.Touch(time), mf), mf);
  }

  lemma TookHolds(cfg: Config, b: Block, status: RequestStatus, mf: MemFetch, time: nat)
    requires cfg.lineSize > 0 && status in {HIT, HIT_RESERVED, SECTOR_MISS} && Holds(b, cfg.BlockAddr(mf.addr))
    ensures Holds(Took(cfg, b, status, mf, time), cfg.BlockAddr(mf.addr))
  {
  }

  ghost predicate Loses(cfg: Config, s: CacheState, s': CacheState, block: nat) {
    Here(cfg, s, block) && !Here(cfg, s', block)
  }

  lemma OneLineChanged(cfg: Config, s: CacheState, s': CacheState, i: nat, w: Block, block: nat)
    requires i < |s.tags.lines| && s'.tags.lines == s.tags.lines[i := w]
    ensures (Holds(w, block) <==> Holds(s.tags.lines[i], block)) ==> (Here(cfg, s', block) <==> Here(cfg, s, block))
    ensures (forall j :: 0 <= j < |s.tags.lines| && j != i ==> !Holds(s.tags.lines[j], block)) ==>
      (Here(cfg, s', block) <==> Holds(w, block)) && (Here(cfg, s, block) <==> Holds(s.tags.lines[i], block))
  {
    hide Holds;
    var (lines, lines') := (s.tags.lines, s'.tags.lines);
    assert lines'[i] == w;
    assert forall j :: 0 <= j < |lines| && j != i ==> lines'[j] == lines[j];
  }

  /** A block loses its line exactly when a request of another block misses, allocates, and
      is given that line. */
  lemma LosesExactlyWhen(cfg: Config, s: CacheState, mf: MemFetch, time: nat, block: nat)
    requires CacheInv(cfg, s) && CacheAccess(cfg, s, mf, time).Some?
    requires CacheAccess(cfg, s, mf, time).value.status != RESERVATION_FAIL
    ensures var p := ProbeFor(cfg, s, mf);
      Loses(cfg, s, CacheAccess(cfg, s, mf, time).value.s, block)
      <==> p.status == MISS && Allocates(cfg, mf) && Holds(s.tags.lines[p.idx], block)
  {
    hide CacheInv, CacheAccess, ProbeFor, AccessedLine, Config.BlockAddr, HitStatus, Holds, Here, AccessPackets,
         Recorded, Allocates;
    InvIsSized(cfg, s);
    InvIsCovered(cfg, s);
    ProbeNames(cfg, s, mf);
    OnlyProbedLine(cfg, s, mf);
    AccessEffect(cfg, s, mf, time);
    var (p, own, s') := (ProbeFor(cfg, s, mf), cfg.BlockAddr(mf.addr), CacheAccess(cfg, s, mf, time).value.s);
    var b := s.tags.lines[p.idx];
    var w := AccessedLine(cfg, b, mf, p.status, time);
    OneLineChanged(cfg, s, s', p.idx, w, block);
    if p.status == RESERVATION_FAIL {
      FailedLineStays(cfg, s, mf, time);
    } else if p.status == MISS && !Allocates(cfg, mf) {
      NotAllocatedIsSame(cfg, b, mf, time);
    } else if p.status == MISS {
      StoredTag(cfg, b, mf, MISS, time);
      TagsDiffer(b, w, own, block);
      if Holds(b, block) {
        InvHasLines(cfg, s);
        OthersHoldNone(cfg, s.tags.lines, p.idx, block);
      }
    } else {
      ReadOnlyIsRead(cfg, s, mf, time);
      FoundStays(cfg, b, mf, p.status, time);
      TagsDiffer(b, w, own, block);
    }
  }

  lemma TagsDiffer(b: Block, w: Block, own: nat, block: nat)
    ensures w.tag == own && block != own ==> !Holds(w, block)
    ensures Holds(b, own) && block != own ==> !Holds(b, block)
    ensures Holds(w, own) && block != own ==> !Holds(w, block)
  {
  }

  lemma ReadOnlyIsRead(cfg: Config, s: CacheState, mf: MemFetch, time: nat)
    requires Sized(cfg, s.tags) && CacheAccess(cfg, s, mf, time).Some?
    ensures mf.isWrite ==> cfg.writePolicy != READ_ONLY
  {
    hide DataAccess, ReadOnlyAccess;
  }

  // ---- the theorem ----

  ghost predicate WritesBack(p: Packet, block: nat) { p.WriteBackPacket? && p.evicted.blockAddr == block }

  lemma AddedAre(cfg: Config, s: CacheState, mf: MemFetch, time: nat)
    requires Sized(cfg, s.tags) && CacheAccess(cfg, s, mf, time).Some?
    requires CacheAccess(cfg, s, mf, time).value.status != RESERVATION_FAIL
    ensures var p := ProbeFor(cfg, s, mf);
      forall x: Packet :: x.WriteBackPacket? ==>
        (x in Added(s, CacheAccess(cfg, s, mf, time).value.s)
         <==> x in WriteBackPackets(cfg, s.tags.lines[p.idx], mf, p.status))
  {
    hide CacheAccess, ProbeFor, AccessPackets, AccessedLine, Recorded, WriteBackPackets;
    AccessEffect(cfg, s, mf, time);
    PacketsAre(cfg, s, mf, ProbeFor(cfg, s, mf));
  }

  lemma VictimIs(cfg: Config, b: Block, i: nat)
    requires cfg.lineSize > 0 && LineOk(cfg, b, i)
    ensures b.IsModifiedLine() ==> Holds(b, b.blockAddr)
    ensures forall block :: Holds(b, block) ==> block == b.blockAddr
  {
  }

  lemma NoReservedVictim(cfg: Config, s: CacheState, mf: MemFetch)
    requires CacheInv(cfg, s) && ProbeFor(cfg, s, mf).status == MISS
    ensures !s.tags.lines[ProbeFor(cfg, s, mf).idx].IsReservedLine()
    ensures LineOk(cfg, s.tags.lines[ProbeFor(cfg, s, mf).idx], ProbeFor(cfg, s, mf).idx)
  {
    hide CacheInv, ProbeFor, Config.BlockAddr, HitStatus;
    InvIsSized(cfg, s);
    ProbeNames(cfg, s, mf);
    LineIsOk(cfg, s, ProbeFor(cfg, s, mf).idx);
  }

  lemma StepWritesBack(cfg: Config, s: CacheState, mf: MemFetch, time: nat, block: nat, d: Data)
    requires CacheInv(cfg, s) && CacheAccess(cfg, s, mf, time).Some?
    requires CacheAccess(cfg, s, mf, time).value.status != RESERVATION_FAIL
    requires BlockTells(cfg, s.tags.lines, block, d)
    ensures var s' := CacheAccess(cfg, s, mf, time).value.s;
      && ((exists p :: p in Added(s, s') && WritesBack(p, block))
          <==> Loses(cfg, s, s', block) && d.stored != {} && cfg.writePolicy != WRITE_THROUGH)
      && (forall p :: p in Added(s, s') && WritesBack(p, block) ==> NamesStores(cfg, p.evicted, d))
  {
    hide CacheInv, CacheAccess, ProbeFor, Added, LineTells, Loses, Block.IsModifiedLine, Block.EvictedInfo, Holds,
         NamesStores, LineOk, Allocates, Block.IsReservedLine;
    InvIsSized(cfg, s);
    LosesExactlyWhen(cfg, s, mf, time, block);
    AddedAre(cfg, s, mf, time);
    var (p, s') := (ProbeFor(cfg, s, mf), CacheAccess(cfg, s, mf, time).value.s);
    var b := s.tags.lines[p.idx];
    if p.status == MISS && Allocates(cfg, mf) {
      NoReservedVictim(cfg, s, mf);
      VictimIs(cfg, b, p.idx);
      assert b.EvictedInfo(cfg.cacheType).blockAddr == b.blockAddr by { EvictedBlock(b, cfg.cacheType); }
      if Holds(b, block) {
        assert LineTells(cfg, b, d);
        IdleSectorsTell(cfg, b, d);
        ModifiedIsStored(b, d);
        if b.IsModifiedLine() {
          EvictedNamesStores(cfg, b, p.idx, d);
          var x := WriteBackPacket(b.EvictedInfo(cfg.cacheType));
          assert WritesBack(x, block);
        }
      }
    }
  }

  lemma EvictedBlock(b: Block, kind: CacheType)
    ensures b.EvictedInfo(kind).blockAddr == b.blockAddr
  {
  }

  /** Over any run under the covered policies an accepted request queues a write-back of a
      block if and only if the block loses its line to it, some store was left in the block
      since it was given the line, and the cache is not write-through.  Of a sectored cache
      the write-back names exactly the sectors of those stores, and in each sector exactly
      the bytes they left and those that fetches asked for that were filled after a store
      had merged with one; of whole lines it names all sectors. */
  lemma WriteBacksAreExact(cfg: Config, events: seq<CacheEvent>, mf: MemFetch, time: nat, block: nat)
    requires Covered(cfg) && LegalRun(cfg, Start(cfg), events)
    requires Run(cfg, Start(cfg), events).Some? ==>
      var s := Run(cfg, Start(cfg), events).value.s;
      && Sized(cfg, s.tags) && CacheAccess(cfg, s, mf, time).Some?
      && CacheAccess(cfg, s, mf, time).value.status != RESERVATION_FAIL
    ensures Run(cfg, Start(cfg), events).Some?
    ensures var s := Run(cfg, Start(cfg), events).value.s;
      var (s', d) := (CacheAccess(cfg, s, mf, time).value.s, DataOf(cfg, Start(cfg), events, block, NOTHING));
      && ((exists p :: p in Added(s, s') && WritesBack(p, block))
          <==> Loses(cfg, s, s', block) && d.stored != {} && cfg.writePolicy != WRITE_THROUGH)
      && (forall p :: p in Added(s, s') && WritesBack(p, block) ==> NamesStores(cfg, p.evicted, d))
  {
    hide SystemInv, CacheInv, CacheAccess, Start, Covered, BlockTells, Config.BlockAddr, DataOf, Run, LegalRun, Added,
         WritesBack, NamesStores, Loses;
    CoveredIsValid(cfg);
    RunFromStartTells(cfg, events, block);
    var s := Run(cfg, Start(cfg), events).value.s;
    StepWritesBack(cfg, s, mf, time, block, DataOf(cfg, Start(cfg), events, block, NOTHING));
  }
}
