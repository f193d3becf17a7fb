/** Written data.  When a byte a client wrote stays in a line that will write it back, or
    in a packet for the lower level, under every policy. */
module CacheDurability {
  import opened CacheTypes
  import opened TagArrays
  import opened CacheModel
  import opened CacheLines
  import opened CacheAdmission
  import opened CacheInvariant
  import opened CacheReads
  import opened CacheOperations
  import opened CacheReturns
  import opened CacheCore
  import opened CacheEffects

  // the sector status that byte k of a line depends on
  function ByteSector(cfg: Config, k: nat): SectorId {
    if cfg.cacheType == SECTOR && k < SECTOR_SIZE * SECTOR_CHUNK_SIZE then k / SECTOR_SIZE else 0
  }

  // byte k is marked dirty, and its sector is modified or will be once filled
  ghost predicate DirtyAt(cfg: Config, b: Block, k: nat) {
    var s := b.sectors[ByteSector(cfg, k)];
    && k in b.dirtyBytes && k < SECTOR_SIZE * SECTOR_CHUNK_SIZE
    && (s.status == MODIFIED || (s.status == RESERVED && s.modifiedOnFill))
  }

  ghost predicate Resident(cfg: Config, lines: seq<Block>, block: nat, k: nat) {
    exists i :: 0 <= i < |lines| && lines[i].tag == block && DirtyAt(cfg, lines[i], k)
  }

  // the packet brings byte k of the block to the lower level
  ghost predicate Carries(cfg: Config, p: Packet, block: nat, k: nat)
    requires cfg.lineSize > 0
  {
    match p
    case ReadPacket(_, _) => false
    case WritePacket(mf) => cfg.BlockAddr(mf.addr) == block && k in mf.bytes
    case WriteBackPacket(e) => e.blockAddr == block && k in e.bytes && k / SECTOR_SIZE in e.sectors
  }

  ghost predicate Carried(cfg: Config, q: seq<Packet>, block: nat, k: nat)
    requires cfg.lineSize > 0
  {
    exists p :: p in q && Carries(cfg, p, block, k)
  }

  // the packets a step added at the back of the miss queue
  function Added(s: CacheState, s': CacheState): seq<Packet> {
    if s.missQueue <= s'.missQueue then s'.missQueue[|s.missQueue|..] else []
  }

  ghost predicate Saved(cfg: Config, s: CacheState, s': CacheState, block: nat, k: nat)
    requires cfg.lineSize > 0
  {
    Resident(cfg, s'.tags.lines, block, k) || Carried(cfg, Added(s, s'), block, k)
  }

  // a store to the sector whose fetch is under way marks what the fetch will make dirty
  ghost predicate Marked(b: Block, sec: SectorId) {
    b.byteMaskOnFill && b.sectors[sec].modifiedOnFill && b.sectors[sec].status in {RESERVED, MODIFIED}
  }

  // ---- single lines ----

  ghost predicate KeepsDirty(cfg: Config, b: Block, b': Block) {
    b'.tag == b.tag && forall k: nat :: DirtyAt(cfg, b, k) ==> DirtyAt(cfg, b', k)
  }

  ghost predicate KeepsMarks(b: Block, b': Block) { forall sec: SectorId :: Marked(b, sec) ==> Marked(b', sec) }

  lemma ResidentKept(cfg: Config, lines: seq<Block>, i: nat, b: Block, block: nat, k: nat)
    requires i < |lines| && KeepsDirty(cfg, lines[i], b) && Resident(cfg, lines, block, k)
    ensures Resident(cfg, lines[i := b], block, k)
  {
    var j :| 0 <= j < |lines| && lines[j].tag == block && DirtyAt(cfg, lines[j], k);
    assert lines[i := b][j].tag == block && DirtyAt(cfg, lines[i := b][j], k);
  }

  lemma DirtyIsResident(cfg: Config, lines: seq<Block>, i: nat, block: nat, k: nat)
    requires i < |lines| && lines[i].tag == block && DirtyAt(cfg, lines[i], k)
    ensures Resident(cfg, lines, block, k)
  {
  }

  lemma PinningKeepsDirty(cfg: Config, b: Block)
    ensures KeepsDirty(cfg, b, b.Pin()) && KeepsDirty(cfg, b, b.Unpin()) && KeepsMarks(b, b.Unpin())
  {
  }

  lemma DirtyIsHeld(cfg: Config, b: Block, k: nat)
    requires DirtyAt(cfg, b, k)
    ensures !b.IsInvalidLine()
  {
  }

  lemma OnlyHolder(cfg: Config, lines: seq<Block>, i: nat, j: nat, tag: nat)
    requires cfg.lineSize > 0 && LinesOk(cfg, lines) && i < |lines| && j < |lines|
             && Holds(lines[i], tag) && Holds(lines[j], tag)
    ensures i == j
  {
    assert i != j ==> !SameBlock(lines[i], lines[j]);
  }

  // the only line that may bear dirty bytes of the block was replaced
  lemma OnlyLineMatters(cfg: Config, lines: seq<Block>, i: nat, block: nat, c: Block, k: nat)
    requires i < |lines| && forall j :: 0 <= j < |lines| && j != i ==> !Holds(lines[j], block)
    ensures Resident(cfg, lines[i := c], block, k) <==> c.tag == block && DirtyAt(cfg, c, k)
  {
    hide DirtyAt;
    forall j | 0 <= j < |lines| && j != i && lines[j].tag == block
      ensures !DirtyAt(cfg, lines[j], k)
    {
      if DirtyAt(cfg, lines[j], k) {
        DirtyIsHeld(cfg, lines[j], k);
      }
    }
    if c.tag == block && DirtyAt(cfg, c, k) {
      assert lines[i := c][i] == c;
    }
  }

  lemma LazyLine(cfg: Config, b: Block, mf: MemFetch, status: RequestStatus)
    ensures KeepsDirty(cfg, b, LazyBlock(cfg, b, mf, status)) && KeepsMarks(b, LazyBlock(cfg, b, mf, status))
  {
    hide UpdateReadable, LazyFlags;
    var written := b.SetStatus(MODIFIED, cfg.SectorOf(mf)).SetByteMask(mf.bytes);
    LazyFlagsKeep(cfg, written, mf, status);
    LazyFlagsOnly(cfg, written, mf, status);
    UpdateReadableOnly(cfg, LazyFlags(cfg, written, mf, status), mf);
    LazyBlockIsWritten(cfg, b, mf, status);
  }

  lemma LazyFlagsKeep(cfg: Config, b: Block, mf: MemFetch, status: RequestStatus)
    ensures var (w, sec) := (LazyFlags(cfg, b, mf, status), cfg.SectorOf(mf));
      (b.byteMaskOnFill ==> w.byteMaskOnFill) && (b.sectors[sec].modifiedOnFill ==> w.sectors[sec].modifiedOnFill)
  {
  }

  lemma WrittenKeeps(cfg: Config, b: Block, mf: MemFetch)
    ensures KeepsDirty(cfg, b, Written(cfg, b, mf)) && KeepsMarks(b, Written(cfg, b, mf))
  {
  }

  lemma ReadableKeeps(cfg: Config, b: Block, mf: MemFetch)
    ensures KeepsDirty(cfg, b, UpdateReadable(cfg, b, mf)) && KeepsMarks(b, UpdateReadable(cfg, b, mf))
  {
    hide UpdateReadable;
    UpdateReadableOnly(cfg, b, mf);
  }

  // tag_array::access on a line that holds the block
  lemma TookKeeps(cfg: Config, b: Block, status: RequestStatus, mf: MemFetch, time: nat)
    requires cfg.lineSize > 0 && status == HitStatus(b.sectors[cfg.SectorOf(mf)], mf.isWrite)
    ensures KeepsDirty(cfg, b, Took(cfg, b, status, mf, time)) && KeepsMarks(b, Took(cfg, b, status, mf, time))
  {
  }

  lemma FlagsKeep(cfg: Config, b: Block, sec: SectorId)
    ensures var w := b.Pin().SetModifiedOnFill(true, sec).SetByteMaskOnFill(true);
      KeepsDirty(cfg, b, w) && KeepsMarks(b, w)
    ensures KeepsDirty(cfg, b, b.Pin()) && KeepsMarks(b, b.Pin())
  {
  }

  lemma KeepsAll(cfg: Config, b: Block, c: Block, d: Block)
    requires KeepsDirty(cfg, b, c) && KeepsDirty(cfg, c, d) && KeepsMarks(b, c) && KeepsMarks(c, d)
    ensures KeepsDirty(cfg, b, d) && KeepsMarks(b, d)
  {
  }

  /** An accepted request that finds the block keeps its line's dirty bytes and marks,
      unless it is a write hit that evicts. */
  lemma FoundLineKeeps(cfg: Config, b: Block, mf: MemFetch, status: RequestStatus, time: nat)
    requires cfg.lineSize > 0 && status == HitStatus(b.sectors[cfg.SectorOf(mf)], mf.isWrite)
    requires !(mf.isWrite && status == HIT && EvictsOnHit(cfg, mf))
    ensures KeepsDirty(cfg, b, AccessedLine(cfg, b, mf, status, time))
    ensures KeepsMarks(b, AccessedLine(cfg, b, mf, status, time))
  {
    hide KeepsDirty, KeepsMarks, Took, UpdateReadable, LazyBlock, Block.Pin, Block.SetModifiedOnFill,
         Block.SetByteMaskOnFill, Block.SetStatus, Block.SetByteMask, HitStatus;
    var t := Took(cfg, b, status, mf, time);
    TookKeeps(cfg, b, status, mf, time);
    if !mf.isWrite {
      FlagsKeep(cfg, t, cfg.SectorOf(mf));
      KeepsAll(cfg, b, t, t.Pin());
    } else if status == HIT {
      assert t == b.Touch(time) by {
        TookIsTouch(cfg, b, mf, time);
      }
      var (v, w) := (Written(cfg, t, mf), UpdateReadable(cfg, Written(cfg, t, mf), mf));
      WrittenKeeps(cfg, t, mf);
      ReadableKeeps(cfg, v, mf);
      FlagsKeep(cfg, w, cfg.SectorOf(mf));
      KeepsAll(cfg, b, t, v);
      KeepsAll(cfg, b, v, w);
      KeepsAll(cfg, b, w, w.Pin());
    } else {
      MissedLineKeeps(cfg, b, mf, status, time);
    }
  }

  lemma TookIsTouch(cfg: Config, b: Block, mf: MemFetch, time: nat)
    requires cfg.lineSize > 0
    ensures Took(cfg, b, HIT, mf, time) == b.Touch(time)
  {
  }

  lemma MissedLineKeeps(cfg: Config, b: Block, mf: MemFetch, status: RequestStatus, time: nat)
    requires cfg.lineSize > 0
    requires var t := Took(cfg, b, status, mf, time); KeepsDirty(cfg, b, t) && KeepsMarks(b, t)
    ensures KeepsDirty(cfg, b, WriteMissLine(cfg, b, mf, status, time))
    ensures KeepsMarks(b, WriteMissLine(cfg, b, mf, status, time))
  {
    hide KeepsDirty, KeepsMarks, Took, LazyBlock, Block.Pin, Block.SetModifiedOnFill, Block.SetByteMaskOnFill,
         Block.SetStatus, Block.SetByteMask;
    var (t, w) := (Took(cfg, b, status, mf, time), WriteMissLine(cfg, b, mf, status, time));
    FlagsKeep(cfg, t, cfg.SectorOf(mf));
    WrittenKeeps(cfg, t, mf);
    LazyLine(cfg, t, mf, status);
    if cfg.writeAllocate == NO_WRITE_ALLOCATE {
      SameLineKeeps(cfg, b);
    } else {
      KeepsAll(cfg, b, t, w);
    }
  }

  lemma SameLineKeeps(cfg: Config, b: Block)
    ensures KeepsDirty(cfg, b, b) && KeepsMarks(b, b)
  {
  }

  // ---- accesses ----

  // the two ways in which an access drops byte k of a block: a write hit that evicts, and
  // an allocation of a write-through cache that takes the block's line
  ghost predicate Drops(cfg: Config, s: CacheState, mf: MemFetch, block: nat, k: nat)
    requires Sized(cfg, s.tags)
  {
    var p := ProbeFor(cfg, s, mf);
    || (mf.isWrite && p.status == HIT && EvictsOnHit(cfg, mf) && EvictsByte(cfg, mf, block, k))
    || (p.status == MISS && Allocates(cfg, mf) && cfg.writePolicy == WRITE_THROUGH
        && s.tags.lines[p.idx].tag == block && DirtyAt(cfg, s.tags.lines[p.idx], k))
  }

  // a byte of the sector that the write does not bring down itself
  ghost predicate EvictsByte(cfg: Config, mf: MemFetch, block: nat, k: nat)
    requires cfg.lineSize > 0
  {
    block == cfg.BlockAddr(mf.addr) && ByteSector(cfg, k) == cfg.SectorOf(mf) && k !in mf.bytes
  }

  lemma AddedIs(s: CacheState, s': CacheState, q: seq<Packet>)
    requires s'.missQueue == s.missQueue + q
    ensures Added(s, s') == q
  {
  }

  // an accepted access in terms of its line and its packets
  lemma AcceptedEffect(cfg: Config, s: CacheState, mf: MemFetch, time: nat)
    requires Sized(cfg, s.tags) && CacheAccess(cfg, s, mf, time).Some?
    requires CacheAccess(cfg, s, mf, time).value.status != RESERVATION_FAIL
    ensures var (s', p) := (CacheAccess(cfg, s, mf, time).value.s, ProbeFor(cfg, s, mf));
      && s'.tags.lines == s.tags.lines[p.idx := AccessedLine(cfg, s.tags.lines[p.idx], mf, p.status, time)]
      && Added(s, s') == AccessPackets(cfg, s, mf, p) && s'.extra == Recorded(cfg, s, mf, p)
  {
    hide CacheAccess, AccessPackets, ProbeFor, AccessedLine, Recorded;
    AccessEffect(cfg, s, mf, time);
    AddedIs(s, CacheAccess(cfg, s, mf, time).value.s, AccessPackets(cfg, s, mf, ProbeFor(cfg, s, mf)));
  }

  // a line that is not taken, evicted or searched in vain
  lemma KeptLineKeeps(cfg: Config, b: Block, mf: MemFetch, status: RequestStatus, time: nat)
    requires cfg.lineSize > 0 && !(mf.isWrite && status == HIT && EvictsOnHit(cfg, mf))
    requires status in {HIT, HIT_RESERVED, SECTOR_MISS} ==> status == HitStatus(b.sectors[cfg.SectorOf(mf)], mf.isWrite)
    requires status == MISS ==> !Allocates(cfg, mf)
    ensures KeepsDirty(cfg, b, AccessedLine(cfg, b, mf, status, time))
    ensures KeepsMarks(b, AccessedLine(cfg, b, mf, status, time))
  {
    hide KeepsDirty, KeepsMarks, WriteMissLine, HitStatus, Block.Pin;
    SameLineKeeps(cfg, b);
    match status {
      case HIT | HIT_RESERVED | SECTOR_MISS => FoundLineKeeps(cfg, b, mf, status, time);
      case MISS => assert AccessedLine(cfg, b, mf, status, time) == b by { NotAllocatedIsSame(cfg, b, mf, time); }
      case RESERVATION_FAIL =>
        assert Took(cfg, b, status, mf, time) == b;
        FlagsKeep(cfg, b, cfg.SectorOf(mf));
        MissedLineKeeps(cfg, b, mf, status, time);
    }
  }

  lemma NotAllocatedIsSame(cfg: Config, b: Block, mf: MemFetch, time: nat)
    requires cfg.lineSize > 0 && !Allocates(cfg, mf)
    ensures AccessedLine(cfg, b, mf, MISS, time) == b
  {
  }

  // a dirty byte of a victim is in the write-back
  lemma VictimIsWrittenBack(cfg: Config, b: Block, mf: MemFetch, k: nat)
    requires cfg.lineSize > 0 && Shaped(cfg, b) && !b.IsReservedLine() && DirtyAt(cfg, b, k)
    requires Allocates(cfg, mf) && cfg.writePolicy != WRITE_THROUGH
    ensures WriteBackPackets(cfg, b, mf, MISS) == [WriteBackPacket(b.EvictedInfo(cfg.cacheType))]
    ensures Carries(cfg, WriteBackPacket(b.EvictedInfo(cfg.cacheType)), b.tag, k)
  {
    assert b.sectors[ByteSector(cfg, k)].status != RESERVED;
    assert k / SECTOR_SIZE in b.DirtySectors(cfg.cacheType);
  }

  // the line after a write hit that evicts
  lemma EvictedLine(cfg: Config, b: Block, mf: MemFetch, time: nat, k: nat)
    requires cfg.lineSize > 0 && mf.isWrite && EvictsOnHit(cfg, mf) && DirtyAt(cfg, b, k)
    ensures var w := AccessedLine(cfg, b, mf, HIT, time);
      w.tag == b.tag && (DirtyAt(cfg, w, k) <==> ByteSector(cfg, k) != cfg.SectorOf(mf))
  {
  }

  lemma CarriedIn(cfg: Config, q: seq<Packet>, p: Packet, block: nat, k: nat)
    requires cfg.lineSize > 0 && p in q && Carries(cfg, p, block, k)
    ensures Carried(cfg, q, block, k)
  {
  }

  lemma PacketsAre(cfg: Config, s: CacheState, mf: MemFetch, p: ProbeResult)
    requires cfg.lineSize > 0 && p.idx < |s.tags.lines|
    ensures forall x :: x in AccessPackets(cfg, s, mf, p) <==>
      || (SendsWrite(cfg, mf, p.status) && x == WritePacket(mf))
      || x in FetchPackets(cfg, s, mf, p.status) || x in WriteBackPackets(cfg, s.tags.lines[p.idx], mf, p.status)
    ensures forall x :: x in FetchPackets(cfg, s, mf, p.status) ==> x.ReadPacket?
  {
    hide FetchPackets, WriteBackPackets, SendsWrite;
    FetchesAreReads(cfg, s, mf, p.status);
  }

  lemma FetchesAreReads(cfg: Config, s: CacheState, mf: MemFetch, status: RequestStatus)
    requires cfg.lineSize > 0
    ensures forall x :: x in FetchPackets(cfg, s, mf, status) ==> x.ReadPacket?
  {
  }

  /** Under every policy an access keeps a dirty byte where it is or carries it down in a
      packet it queues, unless it drops that byte. */
  lemma AccessSavesDirty(cfg: Config, s: CacheState, mf: MemFetch, time: nat, block: nat, k: nat)
    requires CoreInv(cfg, s) && cfg.writePolicy != READ_ONLY && CacheAccess(cfg, s, mf, time).Some?
    requires Resident(cfg, s.tags.lines, block, k) && !Drops(cfg, s, mf, block, k)
    ensures Saved(cfg, s, CacheAccess(cfg, s, mf, time).value.s, block, k)
  {
    hide CoreInv, CacheAccess, Resident, AccessedLine, AccessPackets, Drops, ProbeFor;
    CoreIsSized(cfg, s);
    var s' := CacheAccess(cfg, s, mf, time).value.s;
    if CacheAccess(cfg, s, mf, time).value.status == RESERVATION_FAIL {
      RejectionHasNoEffect(cfg, s, mf, time);
    } else {
      AcceptedEffect(cfg, s, mf, time);
      EffectSaves(cfg, s, s', mf, time, block, k);
    }
  }

  lemma EffectSaves(cfg: Config, s: CacheState, s': CacheState, mf: MemFetch, time: nat, block: nat, k: nat)
    requires Sized(cfg, s.tags) && AllShaped(cfg, s.tags.lines) && Resident(cfg, s.tags.lines, block, k)
    requires !Drops(cfg, s, mf, block, k)
    requires var p := ProbeFor(cfg, s, mf);
      && s'.tags.lines == s.tags.lines[p.idx := AccessedLine(cfg, s.tags.lines[p.idx], mf, p.status, time)]
      && Added(s, s') == AccessPackets(cfg, s, mf, p)
    ensures Saved(cfg, s, s', block, k)
  {
    hide ProbeTags, DirtyAt, AccessedLine, AccessPackets, Config.BlockAddr, Carries, WriteBackPackets, FetchPackets,
         SendsWrite, Allocates, EvictsOnHit, Shaped, HitStatus;
    var p := ProbeFor(cfg, s, mf);
    var b := s.tags.lines[p.idx];
    var w := AccessedLine(cfg, b, mf, p.status, time);
    ProbeNames(cfg, s, mf);
    PacketsAre(cfg, s, mf, p);
    if mf.isWrite && p.status == HIT && EvictsOnHit(cfg, mf) {
      EvictionSaves(cfg, s, s', mf, time, block, k);
    } else if p.status == MISS && Allocates(cfg, mf) {
      var j :| 0 <= j < |s.tags.lines| && s.tags.lines[j].tag == block && DirtyAt(cfg, s.tags.lines[j], k);
      if j == p.idx {
        VictimIsWrittenBack(cfg, b, mf, k);
        CarriedIn(cfg, Added(s, s'), WriteBackPacket(b.EvictedInfo(cfg.cacheType)), block, k);
      } else {
        DirtyIsResident(cfg, s'.tags.lines, j, block, k);
      }
    } else {
      KeptLineKeeps(cfg, b, mf, p.status, time);
      ResidentKept(cfg, s.tags.lines, p.idx, w, block, k);
    }
  }

  // what the probe says about the line it names
  lemma ProbeNames(cfg: Config, s: CacheState, mf: MemFetch)
    requires Sized(cfg, s.tags)
    ensures var p := ProbeFor(cfg, s, mf);
      var b := s.tags.lines[p.idx];
      && (p.status in {HIT, HIT_RESERVED, SECTOR_MISS} ==>
            Holds(b, cfg.BlockAddr(mf.addr)) && p.status == HitStatus(b.sectors[cfg.SectorOf(mf)], mf.isWrite))
      && (p.status == MISS ==> !b.IsPinned() && !b.IsReservedLine())
  {
    hide ProbeTags;
    BlockAddrTwice(cfg, mf.addr);
    ProbeFound(cfg, s.tags, cfg.BlockAddr(mf.addr), cfg.SectorOf(mf), mf.isWrite);
  }

  lemma EvictionSaves(cfg: Config, s: CacheState, s': CacheState, mf: MemFetch, time: nat, block: nat, k: nat)
    requires Sized(cfg, s.tags) && Resident(cfg, s.tags.lines, block, k) && !Drops(cfg, s, mf, block, k)
    requires var p := ProbeFor(cfg, s, mf);
      && mf.isWrite && p.status == HIT && EvictsOnHit(cfg, mf)
      && s'.tags.lines == s.tags.lines[p.idx := AccessedLine(cfg, s.tags.lines[p.idx], mf, p.status, time)]
      && Added(s, s') == AccessPackets(cfg, s, mf, p)
    ensures Saved(cfg, s, s', block, k)
  {
    hide ProbeTags, DirtyAt, AccessedLine, AccessPackets, Config.BlockAddr, WriteBackPackets, FetchPackets, HitStatus,
         EvictsOnHit;
    var p := ProbeFor(cfg, s, mf);
    ProbeNames(cfg, s, mf);
    PacketsAre(cfg, s, mf, p);
    var j :| 0 <= j < |s.tags.lines| && s.tags.lines[j].tag == block && DirtyAt(cfg, s.tags.lines[j], k);
    if j != p.idx {
      DirtyIsResident(cfg, s'.tags.lines, j, block, k);
    } else if k in mf.bytes {
      CarriedIn(cfg, Added(s, s'), WritePacket(mf), block, k);
    } else {
      EvictedLine(cfg, s.tags.lines[p.idx], mf, time, k);
      DirtyIsResident(cfg, s'.tags.lines, p.idx, block, k);
    }
  }

  /** And it drops the byte exactly then: whatever the policy, after an accepted access the
      byte is still dirty in its line or in a packet if and only if the access neither
      evicts it on a write hit nor takes its line in a write-through cache. */
  lemma AccessDropsExactlyWhen(cfg: Config, s: CacheState, mf: MemFetch, time: nat, block: nat, k: nat)
    requires CoreInv(cfg, s) && LinesOk(cfg, s.tags.lines) && cfg.writePolicy != READ_ONLY
    requires CacheAccess(cfg, s, mf, time).Some? && CacheAccess(cfg, s, mf, time).value.status != RESERVATION_FAIL
    requires Resident(cfg, s.tags.lines, block, k)
    ensures Saved(cfg, s, CacheAccess(cfg, s, mf, time).value.s, block, k) <==> !Drops(cfg, s, mf, block, k)
  {
    hide CoreInv, LinesOk, CacheAccess, Resident, AccessedLine, AccessPackets, ProbeFor, EvictsByte, EvictsOnHit,
         Allocates, DirtyAt, Carries;
    CoreIsSized(cfg, s);
    var s' := CacheAccess(cfg, s, mf, time).value.s;
    if Drops(cfg, s, mf, block, k) {
      AcceptedEffect(cfg, s, mf, time);
      if ProbeFor(cfg, s, mf).status == HIT {
        EvictionDrops(cfg, s, s', mf, time, block, k);
      } else {
        AllocationDrops(cfg, s, s', mf, time, block, k);
      }
    } else {
      AccessSavesDirty(cfg, s, mf, time, block, k);
    }
  }

  // no other line than i bears dirty bytes of the block it holds
  lemma OthersHoldNone(cfg: Config, lines: seq<Block>, i: nat, block: nat)
    requires cfg.lineSize > 0 && LinesOk(cfg, lines) && i < |lines| && Holds(lines[i], block)
    ensures forall j :: 0 <= j < |lines| && j != i ==> !Holds(lines[j], block)
  {
    hide LinesOk, Holds;
    forall j | 0 <= j < |lines| && j != i
      ensures !Holds(lines[j], block)
    {
      if Holds(lines[j], block) {
        OnlyHolder(cfg, lines, i, j, block);
      }
    }
  }

  lemma EvictionDrops(cfg: Config, s: CacheState, s': CacheState, mf: MemFetch, time: nat, block: nat, k: nat)
    requires Sized(cfg, s.tags) && LinesOk(cfg, s.tags.lines) && EvictsByte(cfg, mf, block, k)
    requires var p := ProbeFor(cfg, s, mf);
      && mf.isWrite && p.status == HIT && EvictsOnHit(cfg, mf)
      && s'.tags.lines == s.tags.lines[p.idx := AccessedLine(cfg, s.tags.lines[p.idx], mf, p.status, time)]
      && Added(s, s') == AccessPackets(cfg, s, mf, p)
    ensures !Saved(cfg, s, s', block, k)
  {
    hide ProbeTags, DirtyAt, AccessedLine, AccessPackets, Config.BlockAddr, HitStatus, LinesOk, EvictsOnHit, SendsWrite;
    var p := ProbeFor(cfg, s, mf);
    var b := s.tags.lines[p.idx];
    ProbeNames(cfg, s, mf);
    PacketsAre(cfg, s, mf, p);
    OthersHoldNone(cfg, s.tags.lines, p.idx, block);
    OnlyLineMatters(cfg, s.tags.lines, p.idx, block, AccessedLine(cfg, b, mf, p.status, time), k);
    NotDirtyAfterEviction(cfg, b, mf, time, k);
  }

  lemma NotDirtyAfterEviction(cfg: Config, b: Block, mf: MemFetch, time: nat, k: nat)
    requires cfg.lineSize > 0 && mf.isWrite && EvictsOnHit(cfg, mf) && ByteSector(cfg, k) == cfg.SectorOf(mf)
    ensures !DirtyAt(cfg, AccessedLine(cfg, b, mf, HIT, time), k)
  {
  }

  lemma AllocationDrops(cfg: Config, s: CacheState, s': CacheState, mf: MemFetch, time: nat, block: nat, k: nat)
    requires Sized(cfg, s.tags) && LinesOk(cfg, s.tags.lines)
    requires var p := ProbeFor(cfg, s, mf);
      && p.status == MISS && Allocates(cfg, mf) && cfg.writePolicy == WRITE_THROUGH
      && s.tags.lines[p.idx].tag == block && DirtyAt(cfg, s.tags.lines[p.idx], k)
      && s'.tags.lines == s.tags.lines[p.idx := AccessedLine(cfg, s.tags.lines[p.idx], mf, p.status, time)]
      && Added(s, s') == AccessPackets(cfg, s, mf, p)
    ensures !Saved(cfg, s, s', block, k)
  {
    hide ProbeTags, DirtyAt, AccessedLine, AccessPackets, Config.BlockAddr, LinesOk, SendsWrite, Allocates;
    var p := ProbeFor(cfg, s, mf);
    var b := s.tags.lines[p.idx];
    DirtyIsHeld(cfg, b, k);
    BlockAddrTwice(cfg, mf.addr);
    ProbeIsRight(cfg, s.tags, cfg.BlockAddr(mf.addr), cfg.SectorOf(mf), mf.isWrite);
    PacketsAre(cfg, s, mf, p);
    OthersHoldNone(cfg, s.tags.lines, p.idx, block);
    OnlyLineMatters(cfg, s.tags.lines, p.idx, block, AccessedLine(cfg, b, mf, p.status, time), k);
    AllocatedTag(cfg, b, mf, time);
  }

  lemma AllocatedTag(cfg: Config, b: Block, mf: MemFetch, time: nat)
    requires cfg.lineSize > 0 && Allocates(cfg, mf)
    ensures AccessedLine(cfg, b, mf, MISS, time).tag == cfg.BlockAddr(mf.addr)
  {
    hide LazyBlock;
    var t := Took(cfg, b, MISS, mf, time);
    LazyBlockIsWritten(cfg, t, mf, MISS);
  }

  // ---- accepted writes ----

  // a store that waits for a fetch of the rest of its sector
  predicate Defers(cfg: Config, mf: MemFetch, status: RequestStatus) {
    mf.isWrite && status != HIT && cfg.writeAllocate == FETCH_ON_WRITE && !IsFull(cfg, mf)
  }

  // such a store whose fetch is merged into an MSHR entry
  ghost predicate Merges(cfg: Config, s: CacheState, mf: MemFetch)
    requires Sized(cfg, s.tags)
  {
    Defers(cfg, mf, ProbeFor(cfg, s, mf).status) && cfg.MshrAddr(mf.addr) in s.mshr
  }

  // an outstanding fetch will mark byte k of the block dirty in its line
  ghost predicate ArrivesWith(cfg: Config, s: CacheState, f: MemFetch, block: nat, k: nat)
    requires cfg.lineSize > 0
  {
    && f in s.extra && s.extra[f].cacheIndex < |s.tags.lines| && cfg.BlockAddr(f.addr) == block && k in f.bytes
    && k < SECTOR_SIZE * SECTOR_CHUNK_SIZE && ByteSector(cfg, k) == cfg.SectorOf(f)
    && Marked(s.tags.lines[s.extra[f].cacheIndex], cfg.SectorOf(f))
  }

  ghost predicate Arriving(cfg: Config, s: CacheState, block: nat, k: nat)
    requires cfg.lineSize > 0
  {
    exists f :: ArrivesWith(cfg, s, f, block, k)
  }

  lemma ByteIsInSector(cfg: Config, mf: MemFetch, k: nat)
    requires cfg.lineSize > 0 && WellFormed(cfg, mf) && k in mf.bytes
    ensures ByteSector(cfg, k) == cfg.SectorOf(mf) && k < SECTOR_SIZE * SECTOR_CHUNK_SIZE
  {
  }

  // the line of a store that is neither sent down nor deferred
  lemma StoredLine(cfg: Config, b: Block, mf: MemFetch, status: RequestStatus, time: nat, k: nat)
    requires cfg.lineSize > 0 && mf.isWrite && k in mf.bytes && status != RESERVATION_FAIL
    requires !SendsWrite(cfg, mf, status) && !Defers(cfg, mf, status)
    requires ByteSector(cfg, k) == cfg.SectorOf(mf) && k < SECTOR_SIZE * SECTOR_CHUNK_SIZE
    ensures DirtyAt(cfg, AccessedLine(cfg, b, mf, status, time), k)
  {
    hide LazyBlock, UpdateReadable;
    var t := Took(cfg, b, status, mf, time);
    LazyBlockIsWritten(cfg, t, mf, status);
    UpdateReadableOnly(cfg, Written(cfg, b.Touch(time), mf), mf);
  }

  lemma DeferredLine(cfg: Config, b: Block, mf: MemFetch, status: RequestStatus, time: nat)
    requires cfg.lineSize > 0 && Defers(cfg, mf, status)
    requires status in {HIT_RESERVED, SECTOR_MISS} ==> status == HitStatus(b.sectors[cfg.SectorOf(mf)], true)
    requires status != RESERVATION_FAIL
    ensures Marked(AccessedLine(cfg, b, mf, status, time), cfg.SectorOf(mf))
  {
  }

  // the line of a request bears the address of its block
  lemma StoredTag(cfg: Config, b: Block, mf: MemFetch, status: RequestStatus, time: nat)
    requires cfg.lineSize > 0 && status != RESERVATION_FAIL && (status == MISS ==> Allocates(cfg, mf))
    requires status != MISS ==> b.tag == cfg.BlockAddr(mf.addr)
    ensures AccessedLine(cfg, b, mf, status, time).tag == cfg.BlockAddr(mf.addr)
  {
    hide LazyBlock, UpdateReadable;
    LazyBlockIsWritten(cfg, Took(cfg, b, status, mf, time), mf, status);
    UpdateReadableOnly(cfg, Written(cfg, b.Touch(time), mf), mf);
  }

  /** Every byte of an accepted write is dirty in its line or in a queued packet, or comes
      with the write's own fetch, unless that fetch was merged: under every policy. */
  lemma AcceptedWriteIsSaved(cfg: Config, s: CacheState, mf: MemFetch, time: nat, k: nat)
    requires Sized(cfg, s.tags) && WellFormed(cfg, mf) && mf.isWrite && k in mf.bytes
    requires CacheAccess(cfg, s, mf, time).Some? && CacheAccess(cfg, s, mf, time).value.status != RESERVATION_FAIL
    ensures var s' := CacheAccess(cfg, s, mf, time).value.s;
      if Defers(cfg, mf, ProbeFor(cfg, s, mf).status)
      then Merges(cfg, s, mf) || ArrivesWith(cfg, s', AllocateFetch(cfg, s, mf), cfg.BlockAddr(mf.addr), k)
      else Saved(cfg, s, s', cfg.BlockAddr(mf.addr), k)
  {
    hide ProbeFor, AccessedLine, AccessPackets, Config.BlockAddr, Config.MshrAddr, WellFormed, SendsWrite, IsFull,
         HitStatus, DataAccess, DirtyAt, Marked;
    var (s', p, block) := (CacheAccess(cfg, s, mf, time).value.s, ProbeFor(cfg, s, mf), cfg.BlockAddr(mf.addr));
    AcceptedEffect(cfg, s, mf, time);
    ProbeNames(cfg, s, mf);
    ByteIsInSector(cfg, mf, k);
    PacketsAre(cfg, s, mf, p);
    AcceptedIsFound(cfg, s, mf, time);
    if SendsWrite(cfg, mf, p.status) {
      CarriedIn(cfg, Added(s, s'), WritePacket(mf), block, k);
      SentIsNotDeferred(cfg, mf, p.status);
    } else if Defers(cfg, mf, p.status) {
      if !Merges(cfg, s, mf) {
        DeferredLine(cfg, s.tags.lines[p.idx], mf, p.status, time);
      }
    } else {
      if p.status != HIT {
        UnsentAllocates(cfg, mf, p.status);
      }
      StoredLine(cfg, s.tags.lines[p.idx], mf, p.status, time, k);
      StoredTag(cfg, s.tags.lines[p.idx], mf, p.status, time);
      DirtyIsResident(cfg, s'.tags.lines, p.idx, block, k);
    }
  }

  lemma SentIsNotDeferred(cfg: Config, mf: MemFetch, status: RequestStatus)
    requires SendsWrite(cfg, mf, status)
    ensures !Defers(cfg, mf, status)
  {
  }

  lemma UnsentAllocates(cfg: Config, mf: MemFetch, status: RequestStatus)
    requires mf.isWrite && !SendsWrite(cfg, mf, status) && status != HIT
    ensures Allocates(cfg, mf)
  {
  }

  // a request is not accepted without a line, but a write that allocates none
  lemma AcceptedIsFound(cfg: Config, s: CacheState, mf: MemFetch, time: nat)
    requires Sized(cfg, s.tags) && mf.isWrite && CacheAccess(cfg, s, mf, time).Some?
    requires CacheAccess(cfg, s, mf, time).value.status != RESERVATION_FAIL
    ensures ProbeFor(cfg, s, mf).status == RESERVATION_FAIL ==> cfg.writeAllocate == NO_WRITE_ALLOCATE
  {
    hide ProbeFor, WrHit, WrMiss;
  }

  /** What a write-through cache sends down: an accepted write goes down itself if and only
      if it hits or the allocation policy is not FETCH_ON_WRITE. */
  lemma WriteThroughCarriesExactlyWhen(cfg: Config, s: CacheState, mf: MemFetch, time: nat, k: nat)
    requires Sized(cfg, s.tags) && cfg.writePolicy == WRITE_THROUGH && mf.isWrite && k in mf.bytes
    requires CacheAccess(cfg, s, mf, time).Some? && CacheAccess(cfg, s, mf, time).value.status != RESERVATION_FAIL
    ensures Carried(cfg, Added(s, CacheAccess(cfg, s, mf, time).value.s), cfg.BlockAddr(mf.addr), k)
            <==> ProbeFor(cfg, s, mf).status == HIT || cfg.writeAllocate != FETCH_ON_WRITE
  {
    hide CacheAccess, ProbeFor, AccessPackets, AccessedLine, Config.BlockAddr;
    var p := ProbeFor(cfg, s, mf);
    AcceptedEffect(cfg, s, mf, time);
    PacketsAre(cfg, s, mf, p);
    if SendsWrite(cfg, mf, p.status) {
      CarriedIn(cfg, AccessPackets(cfg, s, mf, p), WritePacket(mf), cfg.BlockAddr(mf.addr), k);
    }
  }

  // ---- cycle, fill, next_access ----

  // the fill finds the byte's sector modified, by a store that did not mark it
  ghost predicate FillDrops(cfg: Config, b: Block, r: MemFetch, block: nat, k: nat) {
    && Holds(b, block) && ByteSector(cfg, k) == cfg.SectorOf(r)
    && b.sectors[cfg.SectorOf(r)].status == MODIFIED && !b.sectors[cfg.SectorOf(r)].modifiedOnFill
  }

  lemma FilledLine(cfg: Config, b: Block, r: MemFetch, block: nat, k: nat)
    requires b.tag == block && DirtyAt(cfg, b, k)
    ensures var c := b.Fill(cfg.cacheType, cfg.SectorOf(r), r.bytes);
      c.tag == block && (DirtyAt(cfg, c, k) <==> !FillDrops(cfg, b, r, block, k))
  {
    DirtyIsHeld(cfg, b, k);
  }

  /** A fill keeps a dirty byte, unless it finds the byte's sector modified without
      modified-on-fill. */
  lemma FillSavesDirty(cfg: Config, s: CacheState, r: MemFetch, block: nat, k: nat)
    requires CacheFill(cfg, s, r).Some? && Resident(cfg, s.tags.lines, block, k)
    requires !FillDrops(cfg, s.tags.lines[s.extra[r].cacheIndex], r, block, k)
    ensures Resident(cfg, CacheFill(cfg, s, r).value.tags.lines, block, k)
  {
    hide DirtyAt, FillDrops, Block.Fill;
    var (i, lines') := (s.extra[r].cacheIndex, CacheFill(cfg, s, r).value.tags.lines);
    var j :| 0 <= j < |s.tags.lines| && s.tags.lines[j].tag == block && DirtyAt(cfg, s.tags.lines[j], k);
    if j == i {
      FilledLine(cfg, s.tags.lines[i], r, block, k);
    }
    DirtyIsResident(cfg, lines', j, block, k);
  }

  /** And exactly then, as long as each block is in one line. */
  lemma FillDropsExactlyWhen(cfg: Config, s: CacheState, r: MemFetch, block: nat, k: nat)
    requires cfg.lineSize > 0 && LinesOk(cfg, s.tags.lines)
    requires CacheFill(cfg, s, r).Some? && Resident(cfg, s.tags.lines, block, k)
    ensures Resident(cfg, CacheFill(cfg, s, r).value.tags.lines, block, k)
            <==> !FillDrops(cfg, s.tags.lines[s.extra[r].cacheIndex], r, block, k)
  {
    hide DirtyAt, LinesOk, Block.Fill;
    var i := s.extra[r].cacheIndex;
    var b := s.tags.lines[i];
    if FillDrops(cfg, b, r, block, k) {
      OthersHoldNone(cfg, s.tags.lines, i, block);
      OnlyLineMatters(cfg, s.tags.lines, i, block, b, k);
      assert s.tags.lines[i := b] == s.tags.lines;
      FilledLine(cfg, b, r, block, k);
      OnlyLineMatters(cfg, s.tags.lines, i, block, b.Fill(cfg.cacheType, cfg.SectorOf(r), r.bytes), k);
    } else {
      FillSavesDirty(cfg, s, r, block, k);
    }
  }

  lemma NextSavesDirty(cfg: Config, s: CacheState, block: nat, k: nat)
    requires CacheNext(s).Some? && Resident(cfg, s.tags.lines, block, k)
    ensures Resident(cfg, CacheNext(s).value.s.tags.lines, block, k)
  {
    hide DirtyAt, Resident;
    var d := TakeResponse(s).value;
    if d.mf in d.s.pending {
      var i := d.s.pending[d.mf];
      PinningKeepsDirty(cfg, s.tags.lines[i]);
      ResidentKept(cfg, s.tags.lines, i, s.tags.lines[i].Unpin(), block, k);
    }
  }

  /** Under the covered policies no fill and, with write-back, no access drops a byte. */
  lemma CoveredDropsNothing(cfg: Config, s: CacheState, mf: MemFetch, block: nat, k: nat)
    requires CacheInv(cfg, s)
    ensures mf in s.extra ==> s.extra[mf].cacheIndex < |s.tags.lines|
                              && !FillDrops(cfg, s.tags.lines[s.extra[mf].cacheIndex], mf, block, k)
    ensures cfg.writePolicy == WRITE_BACK ==> !Drops(cfg, s, mf, block, k)
  {
    hide CacheInv, ProbeFor, Config.BlockAddr, Config.MshrAddr, WellFormed;
    InvIsCore(cfg, s);
    if mf in s.extra {
      FillFindsItsLine(cfg, s, mf);
    }
  }

  // ---- bytes still to arrive ----

  /** The fetch of a deferred store makes its bytes dirty. */
  lemma ArrivalIsResident(cfg: Config, s: CacheState, f: MemFetch, block: nat, k: nat)
    requires CoreInv(cfg, s) && ArrivesWith(cfg, s, f, block, k) && CacheFill(cfg, s, f).Some?
    ensures Resident(cfg, CacheFill(cfg, s, f).value.tags.lines, block, k)
  {
    hide CoreInv, Config.BlockAddr, Config.MshrAddr, WellFormed;
    FillFindsItsPin(cfg, s, f);
    var i := s.extra[f].cacheIndex;
    assert DirtyAt(cfg, s.tags.lines[i].Fill(cfg.cacheType, cfg.SectorOf(f), f.bytes), k);
    DirtyIsResident(cfg, CacheFill(cfg, s, f).value.tags.lines, i, block, k);
  }

  // two outstanding fetches are for different sectors
  lemma FetchesDiffer(cfg: Config, s: CacheState, f: MemFetch, g: MemFetch)
    requires CoreInv(cfg, s) && f in s.extra && g in s.extra && f != g
    ensures cfg.BlockAddr(f.addr) != cfg.BlockAddr(g.addr) || cfg.SectorOf(f) != cfg.SectorOf(g)
  {
    hide Config.BlockAddr, Config.MshrAddr, WellFormed, AllShaped, PinsExact, Accounted, WithinCapacity;
    assert OwnsEntry(cfg, s.mshr, s.ready, f, s.extra[f], s.pending);
    assert OwnsEntry(cfg, s.mshr, s.ready, g, s.extra[g], s.pending);
    SameKeySameSector(cfg, f, g);
  }

  lemma FillKeepsArriving(cfg: Config, s: CacheState, g: MemFetch, f: MemFetch, block: nat, k: nat)
    requires CoreInv(cfg, s) && ArrivesWith(cfg, s, f, block, k) && g in s.extra && g != f
    requires CacheFill(cfg, s, g).Some?
    ensures ArrivesWith(cfg, CacheFill(cfg, s, g).value, f, block, k)
  {
    hide CoreInv, Config.BlockAddr, Config.MshrAddr, WellFormed;
    FillFindsItsPin(cfg, s, f);
    FillFindsItsPin(cfg, s, g);
    FetchesDiffer(cfg, s, f, g);
  }

  lemma NextKeepsArriving(cfg: Config, s: CacheState, f: MemFetch, block: nat, k: nat)
    requires cfg.lineSize > 0 && ArrivesWith(cfg, s, f, block, k) && CacheNext(s).Some?
    ensures ArrivesWith(cfg, CacheNext(s).value.s, f, block, k)
  {
    hide Config.BlockAddr;
  }

  /** A byte that will arrive still will, or is saved, after an access that does not drop
      it. */
  lemma AccessKeepsArriving(cfg: Config, s: CacheState, mf: MemFetch, time: nat, f: MemFetch, block: nat, k: nat)
    requires CoreInv(cfg, s) && Presentable(cfg, s, mf, time) && cfg.writePolicy != READ_ONLY
    requires CacheAccess(cfg, s, mf, time).Some? && ArrivesWith(cfg, s, f, block, k) && !Drops(cfg, s, mf, block, k)
    ensures var s' := CacheAccess(cfg, s, mf, time).value.s;
      ArrivesWith(cfg, s', f, block, k) || Saved(cfg, s, s', block, k)
  {
    hide CoreInv, CacheAccess, AccessedLine, AccessPackets, Drops, ProbeFor, Config.BlockAddr, Config.MshrAddr,
         WellFormed, Presentable, Marked, Recorded;
    CoreIsSized(cfg, s);
    var s' := CacheAccess(cfg, s, mf, time).value.s;
    if CacheAccess(cfg, s, mf, time).value.status == RESERVATION_FAIL {
      RejectionHasNoEffect(cfg, s, mf, time);
    } else {
      AcceptedEffect(cfg, s, mf, time);
      RecordStays(cfg, s, mf, time, f);
      FillFindsItsPin(cfg, s, f);
      MarkStays(cfg, s, s', mf, time, f, block, k);
    }
  }

  lemma RecordStays(cfg: Config, s: CacheState, mf: MemFetch, time: nat, f: MemFetch)
    requires CoreInv(cfg, s) && Presentable(cfg, s, mf, time) && f in s.extra
    ensures var extra' := Recorded(cfg, s, mf, ProbeFor(cfg, s, mf)); f in extra' && extra'[f] == s.extra[f]
  {
    hide ProbeTags, Config.BlockAddr, Config.MshrAddr, WellFormed, AllShaped, PinsExact, Accounted, WithinCapacity,
         IsFull;
    assert OwnsEntry(cfg, s.mshr, s.ready, f, s.extra[f], s.pending);
    FreshIdIsNotPending(cfg, s, AllocateFetch(cfg, s, mf));
  }

  lemma MarkStays(cfg: Config, s: CacheState, s': CacheState, mf: MemFetch, time: nat, f: MemFetch, block: nat, k: nat)
    requires Sized(cfg, s.tags) && ArrivesWith(cfg, s, f, block, k) && !Drops(cfg, s, mf, block, k)
    requires var p := ProbeFor(cfg, s, mf);
      && s'.tags.lines == s.tags.lines[p.idx := AccessedLine(cfg, s.tags.lines[p.idx], mf, p.status, time)]
      && Added(s, s') == AccessPackets(cfg, s, mf, p)
    requires f in s'.extra && s'.extra[f] == s.extra[f]
    requires var b := s.tags.lines[s.extra[f].cacheIndex]; Named(b, block) && b.IsPinned()
    ensures ArrivesWith(cfg, s', f, block, k) || Saved(cfg, s, s', block, k)
  {
    hide ProbeTags, AccessedLine, AccessPackets, Config.BlockAddr, HitStatus, EvictsOnHit, Marked, Allocates,
         SendsWrite, DirtyAt;
    var (p, i) := (ProbeFor(cfg, s, mf), s.extra[f].cacheIndex);
    if i == p.idx {
      var b := s.tags.lines[i];
      ProbeNames(cfg, s, mf);
      if mf.isWrite && p.status == HIT && EvictsOnHit(cfg, mf) {
        EvictedMarks(cfg, b, mf, time);
        if k in mf.bytes {
          PacketsAre(cfg, s, mf, p);
          EvictionIsSent(cfg, mf);
          CarriedIn(cfg, Added(s, s'), WritePacket(mf), block, k);
        }
      } else {
        KeptLineKeeps(cfg, b, mf, p.status, time);
      }
    }
  }

  lemma EvictedMarks(cfg: Config, b: Block, mf: MemFetch, time: nat)
    requires cfg.lineSize > 0 && mf.isWrite && EvictsOnHit(cfg, mf)
    ensures forall sec: SectorId :: sec != cfg.SectorOf(mf) && Marked(b, sec) ==>
      Marked(AccessedLine(cfg, b, mf, HIT, time), sec)
  {
  }

  lemma EvictionIsSent(cfg: Config, mf: MemFetch)
    requires mf.isWrite && EvictsOnHit(cfg, mf)
    ensures SendsWrite(cfg, mf, HIT)
  {
  }
}
