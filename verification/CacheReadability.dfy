/** When a request hits: exactly when the data it needs is there, fetched or stored since
    its block was given a line. */
module CacheReadability {
  import opened CacheTypes
  import opened TagArrays
  import opened CacheModel
  import opened CacheLines
  import opened CacheAdmission
  import opened CacheInvariant
  import opened CacheSteps
  import opened CacheOperations
  import opened CacheReturns
  import opened CacheEffects
  import opened CacheDurability
  import opened CacheRuns
  import opened CacheGuarantees

  // ---- the data of a block, from the events ----

  // since the block was given a line: the bytes that accepted stores left in it and their
  // sectors, the sectors whose fetch was filled, and those that still wait for one; whether
  // a store merged with a fetch, and the bytes asked for by fetches filled after that
  datatype Data = Data(written: set<nat>, stored: set<SectorId>, filled: set<SectorId>, waiting: set<SectorId>,
                       merged: bool, brought: set<nat>)

  const NOTHING := Data({}, {}, {}, {}, false, {})

  ghost predicate Here(cfg: Config, s: CacheState, block: nat) {
    exists i :: 0 <= i < |s.tags.lines| && Holds(s.tags.lines[i], block)
  }

  // an accepted store that leaves its bytes in the line, as its status tells
  ghost predicate Leaves(cfg: Config, mf: MemFetch, status: RequestStatus) {
    mf.isWrite && (status == HIT || cfg.writeAllocate == LAZY_FETCH_ON_READ)
  }

  // what a store leaves, and that it merged with a fetch
  ghost function Stored(cfg: Config, mf: MemFetch, d: Data, merges: bool): Data {
    d.(written := d.written + mf.bytes, stored := d.stored + {cfg.SectorOf(mf)},
       waiting := d.waiting - {cfg.SectorOf(mf)}, merged := d.merged || merges)
  }

  // an accepted request: it leaves its bytes, finds what it needs, or waits for it
  ghost function Known(cfg: Config, mf: MemFetch, status: RequestStatus, d: Data): Data {
    var sec := cfg.SectorOf(mf);
    if Leaves(cfg, mf, status) then Stored(cfg, mf, d, sec in d.waiting)
    else if status != HIT && (mf.isWrite ==> cfg.writeAllocate != NO_WRITE_ALLOCATE) then
      d.(waiting := d.waiting + {sec})
    else d
  }

  ghost function Arrived(d: Data, sec: SectorId, bytes: set<nat>): Data {
    d.(filled := d.filled + {sec}, waiting := d.waiting - {sec},
       brought := if d.merged then d.brought + bytes else d.brought)
  }

  ghost function After(cfg: Config, sys: CacheSystem, e: CacheEvent, block: nat, d: Data): Data
    requires cfg.lineSize > 0
  {
    match e
    case Access(mf, time) =>
      if cfg.BlockAddr(mf.addr) != block || !Sized(cfg, sys.s.tags) then d
      else (match CacheAccess(cfg, sys.s, mf, time)
            case None => d
            case Some(o) =>
              if o.status == RESERVATION_FAIL then d
              else
                Known(cfg, mf, o.status, if Here(cfg, sys.s, block) then d else NOTHING))
    case Fill(f) => if cfg.BlockAddr(f.addr) == block then Arrived(d, cfg.SectorOf(f), f.bytes) else d
    case _ => d
  }

  ghost function DataOf(cfg: Config, sys: CacheSystem, events: seq<CacheEvent>, block: nat, d: Data): Data
    requires cfg.lineSize > 0
    decreases |events|
  {
    if events == [] then d
    else match Step(cfg, sys, events[0])
      case None => d
      case Some(next) => DataOf(cfg, next, events[1..], block, After(cfg, sys, events[0], block, d))
  }

  predicate InSector(k: nat, sec: nat) { sec * SECTOR_SIZE <= k < (sec + 1) * SECTOR_SIZE }

  ghost predicate AllWritten(d: Data, sec: nat) { forall k :: InSector(k, sec) ==> k in d.written }

  // ---- what the line says about it ----

  // the data of the sector is all here: a cache of whole lines counts fetches only
  ghost predicate Complete(cfg: Config, d: Data, sec: SectorId) {
    sec in d.filled || (cfg.cacheType == SECTOR && AllWritten(d, sec))
  }

  // the sector answers a request
  ghost predicate Answers(cfg: Config, d: Data, sec: SectorId, isWrite: bool) {
    if isWrite then sec !in d.waiting && (sec in d.filled || sec in d.stored) else Complete(cfg, d, sec)
  }

  ghost predicate BytesTell(dirtyBytes: set<nat>, d: Data, sec: SectorId) {
    forall k :: InSector(k, sec) ==>
      (k in dirtyBytes <==> k in d.written || k in d.brought) && (k in d.brought ==> sec in d.filled)
  }

  ghost predicate SectorTells(cfg: Config, b: Block, d: Data, sec: SectorId) {
    var s := b.sectors[sec];
    && (cfg.cacheType == SECTOR ==> BytesTell(b.dirtyBytes, d, sec) && b.byteMaskOnFill == d.merged)
    && match s.status
       case INVALID =>
         && sec !in d.filled && sec !in d.stored && sec !in d.waiting
         && (cfg.cacheType == SECTOR ==> forall k :: InSector(k, sec) ==> k !in d.written)
       case RESERVED => sec in d.waiting && !Complete(cfg, d, sec) && (s.modifiedOnFill <==> sec in d.stored)
       case VALID => sec in d.filled && sec !in d.stored && sec !in d.waiting && s.readable
       case MODIFIED => sec in d.stored && sec !in d.waiting && (s.readable <==> Complete(cfg, d, sec))
  }

  ghost predicate LineTells(cfg: Config, b: Block, d: Data) { forall sec: SectorId :: SectorTells(cfg, b, d, sec) }

  ghost predicate BlockTells(cfg: Config, lines: seq<Block>, block: nat, d: Data) {
    forall i :: 0 <= i < |lines| && Holds(lines[i], block) ==> LineTells(cfg, lines[i], d)
  }

  // ---- lines ----

  lemma SameSize(x: set<nat>, y: set<nat>)
    requires x <= y && |x| == |y|
    ensures x == y
  {
    assert y == x + (y - x);
  }

  function SectorBytes(sec: nat, n: nat): (s: set<nat>)
    ensures |s| == n && forall k :: k in s <==> sec * SECTOR_SIZE <= k < sec * SECTOR_SIZE + n
  {
    if n == 0 then {} else SectorBytes(sec, n - 1) + {sec * SECTOR_SIZE + n - 1}
  }

  // a store of 32 bytes in one sector writes them all
  lemma FullStoreWritesAll(cfg: Config, mf: MemFetch)
    requires cfg.Valid() && cfg.cacheType == SECTOR && WellFormed(cfg, mf) && IsFull(cfg, mf)
    ensures forall k :: InSector(k, mf.sector) ==> k in mf.bytes
  {
    hide SectorBytes;
    SameSize(mf.bytes, SectorBytes(mf.sector, SECTOR_SIZE));
  }

  lemma LazyReadable(cfg: Config, b: Block, mf: MemFetch, status: RequestStatus)
    requires cfg.cacheType == SECTOR
    ensures LazyBlock(cfg, b, mf, status).sectors[mf.sector].readable
            <==> IsFull(cfg, mf) || forall k :: InSector(k, mf.sector) ==> k in b.dirtyBytes + mf.bytes
    ensures LazyBlock(cfg, b, mf, status).byteMaskOnFill == (b.byteMaskOnFill || status == HIT_RESERVED)
  {
    var written := b.SetStatus(MODIFIED, mf.sector).SetByteMask(mf.bytes);
    FlagsReadable(cfg, written, mf, status);
    var w := LazyFlags(cfg, written, mf, status);
    hide LazyFlags;
    assert w.dirtyBytes == b.dirtyBytes + mf.bytes;
    FullyDirtyIs(w, mf.sector);
  }

  lemma FlagsReadable(cfg: Config, b: Block, mf: MemFetch, status: RequestStatus)
    requires cfg.cacheType == SECTOR
    ensures LazyFlags(cfg, b, mf, status).sectors[mf.sector].readable == IsFull(cfg, mf)
    ensures LazyFlags(cfg, b, mf, status).dirtyBytes == b.dirtyBytes
    ensures LazyFlags(cfg, b, mf, status).byteMaskOnFill == (b.byteMaskOnFill || status == HIT_RESERVED)
  {
  }

  lemma FullyDirtyIs(b: Block, sec: SectorId)
    ensures SectorFullyDirty(b, sec) <==> forall k :: InSector(k, sec) ==> k in b.dirtyBytes
  {
  }

  lemma UpdatedReadable(cfg: Config, b: Block, mf: MemFetch)
    requires cfg.cacheType == SECTOR
    ensures UpdateReadable(cfg, b, mf).sectors[mf.sector].readable
            <==> b.sectors[mf.sector].readable || forall k :: InSector(k, mf.sector) ==> k in b.dirtyBytes
  {
    FullyDirtyIs(b, mf.sector);
  }

  // a store into its line: bytes and status of its sector, and nothing else
  ghost predicate StoredInto(cfg: Config, b: Block, w: Block, mf: MemFetch, merges: bool) {
    && w.dirtyBytes == b.dirtyBytes + mf.bytes && w.byteMaskOnFill == (b.byteMaskOnFill || merges)
    && (forall k: SectorId :: k != cfg.SectorOf(mf) ==> w.sectors[k] == b.sectors[k])
    && w.sectors[cfg.SectorOf(mf)].status == MODIFIED
  }

  // and the sector is readable if it was, or if each of its bytes is dirty now
  ghost predicate ReadableNow(cfg: Config, b: Block, w: Block, mf: MemFetch) {
    w.sectors[cfg.SectorOf(mf)].readable <==>
      || (b.sectors[cfg.SectorOf(mf)].status in {VALID, MODIFIED} && b.sectors[cfg.SectorOf(mf)].readable)
      || (cfg.cacheType == SECTOR && forall k :: InSector(k, mf.sector) ==> k in b.dirtyBytes + mf.bytes)
  }

  lemma StoredTells(cfg: Config, b: Block, w: Block, mf: MemFetch, d: Data, merges: bool)
    requires cfg.Valid() && WellFormed(cfg, mf) && LineTells(cfg, b, d)
    requires StoredInto(cfg, b, w, mf, merges) && ReadableNow(cfg, b, w, mf)
    ensures LineTells(cfg, w, Stored(cfg, mf, d, merges))
  {
    var d' := Stored(cfg, mf, d, merges);
    forall sec: SectorId
      ensures SectorTells(cfg, w, d', sec)
    {
      assert SectorTells(cfg, b, d, sec);
      if sec == cfg.SectorOf(mf) {
        StoredSectorTells(cfg, b, w, mf, d, merges);
      } else if cfg.cacheType == SECTOR {
        OtherBytesTell(b.dirtyBytes, d, mf.bytes, mf.sector, sec);
        assert w.sectors[sec] == b.sectors[sec];
      }
    }
  }

  // bytes of one sector do not matter to another
  lemma OtherBytesTell(dirtyBytes: set<nat>, d: Data, bytes: set<nat>, own: SectorId, sec: SectorId)
    requires own != sec && forall k :: k in bytes ==> InSector(k, own)
    ensures forall k :: InSector(k, sec) ==> k !in bytes
    ensures forall d': Data :: d'.written == d.written + bytes && d'.filled == d.filled && d'.brought == d.brought ==>
      && (AllWritten(d', sec) <==> AllWritten(d, sec))
      && (BytesTell(dirtyBytes, d, sec) ==> BytesTell(dirtyBytes + bytes, d', sec))
  {
    assert forall k :: InSector(k, sec) ==> k !in bytes;
  }

  lemma StoredSectorTells(cfg: Config, b: Block, w: Block, mf: MemFetch, d: Data, merges: bool)
    requires SectorTells(cfg, b, d, cfg.SectorOf(mf))
    requires StoredInto(cfg, b, w, mf, merges) && ReadableNow(cfg, b, w, mf)
    ensures SectorTells(cfg, w, Stored(cfg, mf, d, merges), cfg.SectorOf(mf))
  {
    var (d', sec) := (Stored(cfg, mf, d, merges), cfg.SectorOf(mf));
    if cfg.cacheType == SECTOR && sec !in d.filled {
      assert AllWritten(d', sec) <==> forall k :: InSector(k, sec) ==> k in b.dirtyBytes + mf.bytes;
    }
  }

  // tag_array::access on a line that holds the block; what then waits for its fetch
  lemma TookTells(cfg: Config, b: Block, status: RequestStatus, mf: MemFetch, time: nat, d: Data)
    requires cfg.lineSize > 0 && LineTells(cfg, b, d)
    requires status == HitStatus(b.sectors[cfg.SectorOf(mf)], mf.isWrite)
    ensures var (t, sec) := (Took(cfg, b, status, mf, time), cfg.SectorOf(mf));
      && LineTells(cfg, t, if status == HIT then d else d.(waiting := d.waiting + {sec}))
      && t.dirtyBytes == b.dirtyBytes && t.byteMaskOnFill == b.byteMaskOnFill
      && (status != HIT ==> t.sectors[sec].status == RESERVED)
  {
    var (t, own) := (Took(cfg, b, status, mf, time), cfg.SectorOf(mf));
    var d' := if status == HIT then d else d.(waiting := d.waiting + {own});
    forall sec: SectorId
      ensures SectorTells(cfg, t, d', sec)
    {
      assert SectorTells(cfg, b, d, sec);
      assert InSector(sec * SECTOR_SIZE, sec);
      assert AllWritten(d', sec) <==> AllWritten(d, sec);
    }
    assert SectorTells(cfg, b, d, own);
  }

  // a line just taken
  lemma FreshTells(cfg: Config, b: Block, i: nat, mf: MemFetch, time: nat)
    requires cfg.lineSize > 0 && LineOk(cfg, b, i)
    ensures var (t, sec) := (Took(cfg, b, MISS, mf, time), cfg.SectorOf(mf));
      && LineTells(cfg, t, NOTHING.(waiting := {sec})) && t.sectors[sec].status == RESERVED
  {
    var t := Took(cfg, b, MISS, mf, time);
    forall sec: SectorId
      ensures SectorTells(cfg, t, NOTHING.(waiting := {cfg.SectorOf(mf)}), sec)
    {
      assert InSector(sec * SECTOR_SIZE, sec);
    }
  }

  lemma SameSectorsTell(cfg: Config, b: Block, w: Block, d: Data)
    requires LineTells(cfg, b, d) && w.sectors == b.sectors && w.dirtyBytes == b.dirtyBytes
    requires w.byteMaskOnFill == b.byteMaskOnFill
    ensures LineTells(cfg, w, d)
  {
    forall sec: SectorId
      ensures SectorTells(cfg, w, d, sec)
    {
      assert SectorTells(cfg, b, d, sec);
    }
  }

  lemma LazyTells(cfg: Config, t: Block, mf: MemFetch, status: RequestStatus, d: Data)
    requires cfg.Valid() && cfg.cacheType == SECTOR && WellFormed(cfg, mf) && LineTells(cfg, t, d)
    requires t.sectors[mf.sector].status == RESERVED
    ensures LineTells(cfg, LazyBlock(cfg, t, mf, status), Stored(cfg, mf, d, status == HIT_RESERVED))
  {
    hide LazyBlock, LineTells;
    var w := LazyBlock(cfg, t, mf, status);
    LazyBlockIsWritten(cfg, t, mf, status);
    LazyReadable(cfg, t, mf, status);
    if IsFull(cfg, mf) {
      FullStoreWritesAll(cfg, mf);
    }
    StoredTells(cfg, t, w, mf, d, status == HIT_RESERVED);
  }

  lemma HitStoreTells(cfg: Config, b: Block, mf: MemFetch, time: nat, d: Data)
    requires cfg.Valid() && WellFormed(cfg, mf) && LineTells(cfg, b, d)
    requires b.sectors[cfg.SectorOf(mf)].status in {VALID, MODIFIED}
    requires cfg.cacheType == NORMAL ==> b.sectors[0].readable
    ensures LineTells(cfg, UpdateReadable(cfg, Written(cfg, b.Touch(time), mf), mf), Stored(cfg, mf, d, false))
  {
    hide UpdateReadable, LineTells;
    var t := b.Touch(time);
    SameSectorsTell(cfg, b, t, d);
    var v := Written(cfg, t, mf);
    UpdateReadableOnly(cfg, v, mf);
    if cfg.cacheType == SECTOR {
      UpdatedReadable(cfg, v, mf);
    }
    StoredTells(cfg, t, UpdateReadable(cfg, v, mf), mf, d, false);
  }

  // a request that finds its block
  lemma FoundTells(cfg: Config, b: Block, i: nat, mf: MemFetch, status: RequestStatus, time: nat, d: Data)
    requires Covered(cfg) && WellFormed(cfg, mf) && LineOk(cfg, b, i) && LineTells(cfg, b, d)
    requires status == HitStatus(b.sectors[cfg.SectorOf(mf)], mf.isWrite)
    requires mf.isWrite ==> cfg.writePolicy != READ_ONLY
    ensures LineTells(cfg, AccessedLine(cfg, b, mf, status, time), Known(cfg, mf, status, d))
  {
    hide LineTells, LazyBlock, UpdateReadable, Took;
    var (t, sec) := (Took(cfg, b, status, mf, time), cfg.SectorOf(mf));
    WaitingIsReserved(cfg, b, d, sec, mf.isWrite);
    TookTells(cfg, b, status, mf, time, d);
    var w := AccessedLine(cfg, b, mf, status, time);
    if !mf.isWrite {
      SameSectorsTell(cfg, t, w, Known(cfg, mf, status, d));
    } else if status == HIT {
      WriteHits(b.sectors[sec]);
      HitStoreTells(cfg, b, mf, time, d);
      var v := WriteHitLine(cfg, b, mf, time);
      SameSectorsTell(cfg, v, v.Pin(), Stored(cfg, mf, d, false));
    } else if cfg.writeAllocate == LAZY_FETCH_ON_READ {
      LazyTells(cfg, t, mf, status, d.(waiting := d.waiting + {sec}));
      assert d.waiting + {sec} - {sec} == d.waiting - {sec};
    } else if cfg.writeAllocate == WRITE_ALLOCATE {
      SameSectorsTell(cfg, t, t.Pin(), Known(cfg, mf, status, d));
    }
  }

  lemma WaitingIsReserved(cfg: Config, b: Block, d: Data, sec: SectorId, isWrite: bool)
    requires LineTells(cfg, b, d)
    ensures HitStatus(b.sectors[sec], isWrite) == HIT_RESERVED <==> sec in d.waiting
  {
    assert SectorTells(cfg, b, d, sec);
  }

  lemma WriteHits(s: Sector)
    requires HitStatus(s, true) == HIT
    ensures s.status in {VALID, MODIFIED}
  {
  }

  // a request whose block is in no line
  lemma TakenTells(cfg: Config, b: Block, i: nat, mf: MemFetch, time: nat)
    requires Covered(cfg) && WellFormed(cfg, mf) && LineOk(cfg, b, i) && Allocates(cfg, mf)
    requires mf.isWrite ==> cfg.writePolicy != READ_ONLY
    ensures LineTells(cfg, AccessedLine(cfg, b, mf, MISS, time), Known(cfg, mf, MISS, NOTHING))
  {
    hide LineTells, LazyBlock, Took;
    var (t, sec) := (Took(cfg, b, MISS, mf, time), cfg.SectorOf(mf));
    FreshTells(cfg, b, i, mf, time);
    assert NOTHING.waiting + {sec} == {sec};
    if mf.isWrite && cfg.writeAllocate == LAZY_FETCH_ON_READ {
      LazyTells(cfg, t, mf, MISS, NOTHING.(waiting := {sec}));
      assert {sec} - {sec} == {} && NOTHING.waiting - {sec} == {};
    } else {
      SameSectorsTell(cfg, t, t.Pin(), NOTHING.(waiting := {sec}));
    }
  }

  lemma FilledTells(cfg: Config, b: Block, f: MemFetch, d: Data)
    requires cfg.lineSize > 0 && WellFormed(cfg, f) && LineTells(cfg, b, d) && Awaiting(b.sectors[cfg.SectorOf(f)])
    requires cfg.cacheType == NORMAL ==> b.sectors[0].readable
    ensures LineTells(cfg, b.Fill(cfg.cacheType, cfg.SectorOf(f), f.bytes), Arrived(d, cfg.SectorOf(f), f.bytes))
  {
    var (own, w) := (cfg.SectorOf(f), b.Fill(cfg.cacheType, cfg.SectorOf(f), f.bytes));
    var d' := Arrived(d, own, f.bytes);
    forall sec: SectorId
      ensures SectorTells(cfg, w, d', sec)
    {
      assert SectorTells(cfg, b, d, sec);
      if sec != own {
        if cfg.cacheType == SECTOR {
          assert forall k :: InSector(k, sec) ==> k !in f.bytes;
        }
        assert AllWritten(d', sec) <==> AllWritten(d, sec);
        assert w.sectors[sec] == b.sectors[sec];
      }
    }
  }

  // ---- steps ----

  lemma AccessTells(cfg: Config, sys: CacheSystem, mf: MemFetch, time: nat, block: nat, d: Data)
    requires CacheInv(cfg, sys.s) && Presentable(cfg, sys.s, mf, time)
    requires CacheAccess(cfg, sys.s, mf, time).Some? && BlockTells(cfg, sys.s.tags.lines, block, d)
    ensures BlockTells(cfg, CacheAccess(cfg, sys.s, mf, time).value.s.tags.lines, block,
                       After(cfg, sys, Access(mf, time), block, d))
  {
    hide CacheInv, CacheAccess, ProbeFor, AccessedLine, AccessPackets, Recorded, LineTells, Config.BlockAddr,
         WellFormed, Holds;
    var s := sys.s;
    InvIsSized(cfg, s);
    if CacheAccess(cfg, s, mf, time).value.status == RESERVATION_FAIL {
      RejectionHasNoEffect(cfg, s, mf, time);
    } else {
      AccessEffect(cfg, s, mf, time);
      var (p, d') := (ProbeFor(cfg, s, mf), After(cfg, sys, Access(mf, time), block, d));
      var (b, w) := (s.tags.lines[p.idx], AccessedLine(cfg, s.tags.lines[p.idx], mf, p.status, time));
      var lines' := s.tags.lines[p.idx := w];
      forall i | 0 <= i < |lines'| && Holds(lines'[i], block)
        ensures LineTells(cfg, lines'[i], d')
      {
        if cfg.BlockAddr(mf.addr) != block {
          OtherBlockStays(cfg, s, mf, time, block);
        } else {
          OwnBlockTells(cfg, sys, mf, time, d, i);
        }
      }
    }
  }

  // the line of the request, if it holds another block afterwards, was not touched
  lemma OtherBlockStays(cfg: Config, s: CacheState, mf: MemFetch, time: nat, block: nat)
    requires CacheInv(cfg, s) && cfg.BlockAddr(mf.addr) != block && CacheAccess(cfg, s, mf, time).Some?
    requires CacheAccess(cfg, s, mf, time).value.status != RESERVATION_FAIL
    ensures var p := ProbeFor(cfg, s, mf);
      var (b, w) := (s.tags.lines[p.idx], AccessedLine(cfg, s.tags.lines[p.idx], mf, p.status, time));
      Holds(w, block) ==> w == b
  {
    hide CacheInv, CacheAccess, ProbeFor, AccessedLine, Config.BlockAddr, HitStatus;
    InvIsSized(cfg, s);
    var p := ProbeFor(cfg, s, mf);
    var b := s.tags.lines[p.idx];
    ProbeNames(cfg, s, mf);
    if p.status == RESERVATION_FAIL {
      FailedLineStays(cfg, s, mf, time);
    } else if p.status == MISS && !Allocates(cfg, mf) {
      NotAllocatedIsSame(cfg, b, mf, time);
    } else {
      StoredTag(cfg, b, mf, p.status, time);
    }
  }

  lemma FailedLineStays(cfg: Config, s: CacheState, mf: MemFetch, time: nat)
    requires Sized(cfg, s.tags) && CacheAccess(cfg, s, mf, time).Some?
    requires CacheAccess(cfg, s, mf, time).value.status != RESERVATION_FAIL
    requires ProbeFor(cfg, s, mf).status == RESERVATION_FAIL
    ensures var (p, b) := (ProbeFor(cfg, s, mf), s.tags.lines[ProbeFor(cfg, s, mf).idx]);
      mf.isWrite && cfg.writeAllocate == NO_WRITE_ALLOCATE && AccessedLine(cfg, b, mf, p.status, time) == b
  {
    hide ProbeFor, WrMiss, WrHit, RdMiss, TagAccess, SendRead;
  }

  // the line of the request's own block
  lemma OwnBlockTells(cfg: Config, sys: CacheSystem, mf: MemFetch, time: nat, d: Data, i: nat)
    requires CacheInv(cfg, sys.s) && Presentable(cfg, sys.s, mf, time)
    requires CacheAccess(cfg, sys.s, mf, time).Some?
    requires CacheAccess(cfg, sys.s, mf, time).value.status
             == if ProbeFor(cfg, sys.s, mf).status == HIT then HIT else MISS
    requires BlockTells(cfg, sys.s.tags.lines, cfg.BlockAddr(mf.addr), d) && i < |sys.s.tags.lines|
    requires var p := ProbeFor(cfg, sys.s, mf);
      Holds(sys.s.tags.lines[p.idx := AccessedLine(cfg, sys.s.tags.lines[p.idx], mf, p.status, time)][i],
            cfg.BlockAddr(mf.addr))
    ensures var p := ProbeFor(cfg, sys.s, mf);
      LineTells(cfg, sys.s.tags.lines[p.idx := AccessedLine(cfg, sys.s.tags.lines[p.idx], mf, p.status, time)][i],
                After(cfg, sys, Access(mf, time), cfg.BlockAddr(mf.addr), d))
  {
    hide CacheInv, CacheAccess, ProbeFor, AccessedLine, LineTells, Config.BlockAddr, WellFormed, Holds, HitStatus,
         Allocates;
    InvIsSized(cfg, sys.s);
    InvIsCovered(cfg, sys.s);
    var (s, block, p) := (sys.s, cfg.BlockAddr(mf.addr), ProbeFor(cfg, sys.s, mf));
    ProbeNames(cfg, s, mf);
    OnlyProbedLine(cfg, s, mf);
    var b := s.tags.lines[p.idx];
    if p.status == RESERVATION_FAIL {
      FailedLineStays(cfg, s, mf, time);
    } else if p.status == MISS {
      if Allocates(cfg, mf) {
        LineIsOk(cfg, s, p.idx);
        TakenTells(cfg, b, p.idx, mf, time);
      } else {
        NotAllocatedIsSame(cfg, b, mf, time);
      }
    } else {
      LineIsOk(cfg, s, p.idx);
      FoundTells(cfg, b, p.idx, mf, p.status, time, d);
      KnownAlike(cfg, mf, p.status, d);
    }
  }

  lemma LineIsOk(cfg: Config, s: CacheState, i: nat)
    requires CacheInv(cfg, s) && i < |s.tags.lines|
    ensures LineOk(cfg, s.tags.lines[i], i)
  {
    hide MshrsOk, SectorsOk, Accounted, PinsExact, PinsHold, WithinCapacity, LineOk;
  }

  lemma KnownAlike(cfg: Config, mf: MemFetch, status: RequestStatus, d: Data)
    ensures Known(cfg, mf, if status == HIT then HIT else MISS, d) == Known(cfg, mf, status, d)
  {
  }

  // the block is in the line the probe names, or in none
  lemma OnlyProbedLine(cfg: Config, s: CacheState, mf: MemFetch)
    requires CacheInv(cfg, s)
    ensures var (p, block) := (ProbeFor(cfg, s, mf), cfg.BlockAddr(mf.addr));
      && (forall j :: 0 <= j < |s.tags.lines| && j != p.idx ==> !Holds(s.tags.lines[j], block))
      && (p.status in {MISS, RESERVATION_FAIL} ==> !Here(cfg, s, block))
      && (p.status !in {MISS, RESERVATION_FAIL} ==> Here(cfg, s, block))
  {
    hide ProbeTags, LinesOk, Holds, MshrsOk, SectorsOk, Accounted, PinsExact, PinsHold, WithinCapacity,
         Config.BlockAddr;
    BlockAddrTwice(cfg, mf.addr);
    ProbeIsRight(cfg, s.tags, cfg.BlockAddr(mf.addr), cfg.SectorOf(mf), mf.isWrite);
    if ProbeFor(cfg, s, mf).status !in {MISS, RESERVATION_FAIL} {
      OthersHoldNone(cfg, s.tags.lines, ProbeFor(cfg, s, mf).idx, cfg.BlockAddr(mf.addr));
    }
  }

  lemma FillTells(cfg: Config, sys: CacheSystem, f: MemFetch, block: nat, d: Data)
    requires CacheInv(cfg, sys.s) && CacheFill(cfg, sys.s, f).Some?
    requires BlockTells(cfg, sys.s.tags.lines, block, d)
    ensures BlockTells(cfg, CacheFill(cfg, sys.s, f).value.tags.lines, block, After(cfg, sys, Fill(f), block, d))
  {
    hide CacheInv, LineTells, Config.BlockAddr, Config.MshrAddr, WellFormed, Block.Fill, Awaiting;
    var s := sys.s;
    FilledIsRecorded(cfg, s, f);
    InvHasLines(cfg, s);
    FillFindsItsLine(cfg, s, f);
    var i := s.extra[f].cacheIndex;
    FilledTag(s.tags.lines[i], cfg.cacheType, cfg.SectorOf(f), f.bytes);
    if cfg.BlockAddr(f.addr) == block {
      OthersHoldNone(cfg, s.tags.lines, i, block);
      LineIsOk(cfg, s, i);
      FilledTells(cfg, s.tags.lines[i], f, d);
    }
  }

  lemma InvHasLines(cfg: Config, s: CacheState)
    requires CacheInv(cfg, s)
    ensures cfg.lineSize > 0 && LinesOk(cfg, s.tags.lines)
  {
  }

  lemma FilledTag(b: Block, kind: CacheType, sec: SectorId, bytes: set<nat>)
    ensures b.Fill(kind, sec, bytes).tag == b.tag
  {
  }

  lemma NextTells(cfg: Config, s: CacheState, block: nat, d: Data)
    requires CacheNext(s).Some? && BlockTells(cfg, s.tags.lines, block, d)
    ensures BlockTells(cfg, CacheNext(s).value.s.tags.lines, block, d)
  {
    hide LineTells;
    var d1 := TakeResponse(s).value;
    if d1.mf in d1.s.pending {
      var i := d1.s.pending[d1.mf];
      if Holds(s.tags.lines[i], block) {
        SameSectorsTell(cfg, s.tags.lines[i], s.tags.lines[i].Unpin(), d);
      }
    }
  }

  lemma StepTells(cfg: Config, sys: CacheSystem, e: CacheEvent, block: nat, d: Data)
    requires cfg.lineSize > 0 && CacheInv(cfg, sys.s) && Legal(cfg, sys, e)
    requires Step(cfg, sys, e).Some? && BlockTells(cfg, sys.s.tags.lines, block, d)
    ensures BlockTells(cfg, Step(cfg, sys, e).value.s.tags.lines, block, After(cfg, sys, e, block, d))
  {
    hide CacheInv, CacheAccess, CacheFill, CacheNext, Step, BlockTells, Presentable, Here, Config.BlockAddr;
    StepIs(cfg, sys, e);
    match e {
      case Access(mf, time) => AccessTells(cfg, sys, mf, time, block, d);
      case Cycle(memFull) =>
      case Fill(f) => FillTells(cfg, sys, f, block, d);
      case Next => NextTells(cfg, sys.s, block, d);
    }
  }

  lemma {:induction false} RunTells(cfg: Config, sys: CacheSystem, events: seq<CacheEvent>, block: nat, d: Data)
    requires cfg.lineSize > 0 && SystemInv(cfg, sys) && CacheInv(cfg, sys.s)
    requires LegalRun(cfg, sys, events) && Run(cfg, sys, events).Some? && BlockTells(cfg, sys.s.tags.lines, block, d)
    ensures BlockTells(cfg, Run(cfg, sys, events).value.s.tags.lines, block, DataOf(cfg, sys, events, block, d))
    decreases |events|
  {
    hide SystemInv, CacheInv, Step, Legal, Impossible, BlockTells, After;
    if events != [] {
      StepKeepsInv(cfg, sys, events[0]);
      StepKeepsCovered(cfg, sys, events[0]);
      StepTells(cfg, sys, events[0], block, d);
      RunTells(cfg, Step(cfg, sys, events[0]).value, events[1..], block, After(cfg, sys, events[0], block, d));
    }
  }

  // ---- the theorem ----

  lemma StatusTells(cfg: Config, b: Block, d: Data, sec: SectorId, isWrite: bool)
    requires SectorTells(cfg, b, d, sec)
    ensures HitStatus(b.sectors[sec], isWrite) == HIT <==> Answers(cfg, d, sec, isWrite)
  {
    assert InSector(sec * SECTOR_SIZE, sec);
  }

  lemma StartTells(cfg: Config, block: nat)
    requires cfg.Valid()
    ensures BlockTells(cfg, Start(cfg).s.tags.lines, block, NOTHING)
  {
  }

  lemma ProbeTells(cfg: Config, s: CacheState, mf: MemFetch, d: Data)
    requires CacheInv(cfg, s) && BlockTells(cfg, s.tags.lines, cfg.BlockAddr(mf.addr), d)
    ensures ProbeFor(cfg, s, mf).status == HIT <==>
      Here(cfg, s, cfg.BlockAddr(mf.addr)) && Answers(cfg, d, cfg.SectorOf(mf), mf.isWrite)
  {
    hide CacheInv, ProbeFor, Here, Config.BlockAddr, HitStatus, SectorTells, Answers;
    InvIsSized(cfg, s);
    OnlyProbedLine(cfg, s, mf);
    ProbeNames(cfg, s, mf);
    var p := ProbeFor(cfg, s, mf);
    if p.status !in {MISS, RESERVATION_FAIL} {
      StatusTells(cfg, s.tags.lines[p.idx], d, cfg.SectorOf(mf), mf.isWrite);
    }
  }

  lemma RunFromStartTells(cfg: Config, events: seq<CacheEvent>, block: nat)
    requires Covered(cfg) && LegalRun(cfg, Start(cfg), events)
    ensures Run(cfg, Start(cfg), events).Some?
    ensures var s := Run(cfg, Start(cfg), events).value.s;
      CacheInv(cfg, s) && BlockTells(cfg, s.tags.lines, block, DataOf(cfg, Start(cfg), events, block, NOTHING))
  {
    hide SystemInv, CacheInv, Start, Covered, BlockTells, DataOf, Run, LegalRun;
    CoveredIsValid(cfg);
    StartInv(cfg);
    StartIsCovered(cfg);
    StartTells(cfg, block);
    RunKeepsCovered(cfg, Start(cfg), events);
    RunTells(cfg, Start(cfg), events, block, NOTHING);
  }

  /** Over any run under the covered policies an accepted request hits if and only if its
      block is in a line and, since the block was given one: for a read, the fetch of its
      sector was filled, or in a sectored cache each byte of the sector was left there by an
      accepted store; for a write, a fetch was filled or a store left bytes in its sector,
      and no request that missed waits for it.  No read is answered from bytes that never
      came, and none fetches what is there. */
  lemma HitsExactlyWhen(cfg: Config, events: seq<CacheEvent>, mf: MemFetch, time: nat)
    requires Covered(cfg) && LegalRun(cfg, Start(cfg), events)
    requires Run(cfg, Start(cfg), events).Some? ==>
      var s := Run(cfg, Start(cfg), events).value.s;
      && Sized(cfg, s.tags) && CacheAccess(cfg, s, mf, time).Some?
      && CacheAccess(cfg, s, mf, time).value.status != RESERVATION_FAIL
    ensures Run(cfg, Start(cfg), events).Some?
    ensures var (s, block, sec) := (Run(cfg, Start(cfg), events).value.s, cfg.BlockAddr(mf.addr), cfg.SectorOf(mf));
      var d := DataOf(cfg, Start(cfg), events, block, NOTHING);
      CacheAccess(cfg, s, mf, time).value.status == HIT <==>
        Here(cfg, s, block)
        && if mf.isWrite then sec !in d.waiting && (sec in d.filled || sec in d.stored)
           else sec in d.filled || (cfg.cacheType == SECTOR && AllWritten(d, sec))
  {
    hide SystemInv, CacheInv, CacheAccess, Start, Covered, BlockTells, ProbeFor, Here, AccessedLine, AccessPackets,
         Recorded, Config.BlockAddr, DataOf, Run, LegalRun;
    CoveredIsValid(cfg);
    RunFromStartTells(cfg, events, cfg.BlockAddr(mf.addr));
    var s := Run(cfg, Start(cfg), events).value.s;
    ProbeTells(cfg, s, mf, DataOf(cfg, Start(cfg), events, cfg.BlockAddr(mf.addr), NOTHING));
    AccessEffect(cfg, s, mf, time);
  }
}
