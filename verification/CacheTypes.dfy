/** The vocabulary the cache models share: configuration, requests, and one
    cache line as a value.  A line of a NORMAL cache uses sector 0 only; a line
    of a SECTOR cache uses all four. */
module CacheTypes {

  import Arithmetic

  const SECTOR_SIZE: nat := 32
  const SECTOR_CHUNK_SIZE: nat := 4

  // probe() starts its search for the oldest line from (unsigned)-1
  const TIME_SENTINEL: nat := 0xFFFF_FFFF

  datatype Status = INVALID | RESERVED | VALID | MODIFIED
  datatype RequestStatus = HIT | HIT_RESERVED | MISS | RESERVATION_FAIL | SECTOR_MISS
  datatype CacheType = NORMAL | SECTOR
  datatype Replacement = LRU | FIFO
  datatype WritePolicy = READ_ONLY | WRITE_BACK | WRITE_THROUGH | WRITE_EVICT | LOCAL_WB_GLOBAL_WT
  datatype WriteAllocatePolicy = NO_WRITE_ALLOCATE | WRITE_ALLOCATE | FETCH_ON_WRITE | LAZY_FETCH_ON_READ

  type SectorId = n: nat | n < SECTOR_CHUNK_SIZE

  /** A mem_fetch: requests of clients and the fetches a cache allocates itself
      are told apart by their ids, as pointers are. */
  datatype FetchId = Client(n: nat) | Allocated(n: nat)
  datatype MemFetch = MemFetch(id: FetchId, addr: nat, dataSize: nat, isWrite: bool,
                               isGlobal: bool, sector: SectorId, bytes: set<nat>)

  /** The set-index hash is a parameter: nothing below depends on which one it is. */
  datatype Config = Config(
    cacheType: CacheType, lineSize: nat, nset: nat, assoc: nat, replacement: Replacement,
    writePolicy: WritePolicy, writeAllocate: WriteAllocatePolicy, wrPercent: nat,
    mshrEntries: nat, mshrMaxMerge: nat, missQueueSize: nat, hitQueueSize: nat,
    portWidth: nat, setIndex: nat -> nat)
  {
    ghost predicate Valid() {
      && lineSize > 0 && nset > 0 && assoc > 0 && portWidth > 0 && mshrMaxMerge > 0
      && (cacheType == SECTOR ==> lineSize == SECTOR_SIZE * SECTOR_CHUNK_SIZE)
      && forall a :: setIndex(a) < nset
    }

    function NumLines(): nat { nset * assoc }

    function AtomSize(): nat { if cacheType == SECTOR then SECTOR_SIZE else lineSize }

    // addr & ~(lineSize - 1); the tag is the block address
    function BlockAddr(addr: nat): nat
      requires lineSize > 0
    {
      addr - addr % lineSize
    }

    // addr & ~(atomSize - 1)
    function MshrAddr(addr: nat): nat
      requires lineSize > 0
    {
      addr - addr % AtomSize()
    }

    function SetBase(addr: nat): nat { setIndex(addr) * assoc }

    function SectorOf(mf: MemFetch): SectorId {
      if cacheType == SECTOR then mf.sector else 0
    }
  }

  lemma BlockAddrTwice(cfg: Config, addr: nat)
    requires cfg.lineSize > 0
    ensures cfg.BlockAddr(cfg.BlockAddr(addr)) == cfg.BlockAddr(addr)
  {
    Arithmetic.AlignDown(addr, cfg.lineSize);
  }

  ghost predicate Distinct<T>(q: seq<T>) {
    forall i, j :: 0 <= i < j < |q| ==> q[i] != q[j]
  }

  datatype Sector = Sector(status: Status, modifiedOnFill: bool, readableOnFill: bool, readable: bool)

  const INITIAL_SECTOR := Sector(INVALID, false, false, true)
  const INITIAL_SECTORS: Sectors := [INITIAL_SECTOR, INITIAL_SECTOR, INITIAL_SECTOR, INITIAL_SECTOR]

  type Sectors = s: seq<Sector> | |s| == SECTOR_CHUNK_SIZE
    witness [INITIAL_SECTOR, INITIAL_SECTOR, INITIAL_SECTOR, INITIAL_SECTOR]

  datatype Evicted = Evicted(blockAddr: nat, bytes: set<nat>, sectors: set<nat>)

  const INITIAL_BLOCK := Block(0, 0, INITIAL_SECTORS, false, 0, 0, 0, {})

  /** One cache line.  Fields of the original that no decision reads
      (per-sector times, fill times, ignore-on-fill, maxima) are not kept. */
  datatype Block = Block(tag: nat, blockAddr: nat, sectors: Sectors, byteMaskOnFill: bool,
                         allocTime: nat, lastAccess: nat, pins: nat, dirtyBytes: set<nat>)
  {
    predicate HasSector(st: Status) {
      sectors[0].status == st || sectors[1].status == st || sectors[2].status == st || sectors[3].status == st
    }
    predicate IsInvalidLine() {
      && sectors[0].status == INVALID && sectors[1].status == INVALID
      && sectors[2].status == INVALID && sectors[3].status == INVALID
    }
    predicate IsReservedLine() { HasSector(RESERVED) }
    predicate IsModifiedLine() { HasSector(MODIFIED) }
    predicate IsPinned() { pins != 0 }

    // a line block reports all its sectors or none
    function DirtySectors(kind: CacheType): set<nat> {
      if kind == SECTOR then set i | 0 <= i < SECTOR_CHUNK_SIZE && sectors[i].status == MODIFIED
      else if sectors[0].status == MODIFIED then {0, 1, 2, 3} else {}
    }

    function EvictedInfo(kind: CacheType): Evicted { Evicted(blockAddr, dirtyBytes, DirtySectors(kind)) }

    function Allocate(kind: CacheType, tag: nat, blockAddr: nat, time: nat, sec: SectorId): Block {
      if kind == SECTOR then
        Block(tag, blockAddr, INITIAL_SECTORS[sec := Sector(RESERVED, false, false, true)], false, time, time, 0, {})
      else
        Block(tag, blockAddr, sectors[sec := Sector(RESERVED, false, false, sectors[sec].readable)],
              false, time, time, 0, dirtyBytes)
    }

    function AllocateSector(time: nat, sec: SectorId): Block {
      this.(sectors := sectors[sec := Sector(RESERVED, sectors[sec].status == MODIFIED, false, true)],
            lastAccess := time)
    }

    function Fill(kind: CacheType, sec: SectorId, bytes: set<nat>): Block {
      var s := sectors[sec];
      var filled := Sector(if s.modifiedOnFill then MODIFIED else VALID, s.modifiedOnFill,
                           s.readableOnFill && kind == NORMAL, s.readable || s.readableOnFill);
      this.(sectors := sectors[sec := filled],
            dirtyBytes := if byteMaskOnFill then dirtyBytes + bytes else dirtyBytes)
    }

    function Touch(time: nat): Block { this.(lastAccess := time) }
    function SetStatus(st: Status, sec: SectorId): Block {
      this.(sectors := sectors[sec := sectors[sec].(status := st)])
    }
    function SetByteMask(bytes: set<nat>): Block { this.(dirtyBytes := dirtyBytes + bytes) }
    function SetModifiedOnFill(v: bool, sec: SectorId): Block {
      this.(sectors := sectors[sec := sectors[sec].(modifiedOnFill := v)])
    }
    function SetReadableOnFill(v: bool, sec: SectorId): Block {
      this.(sectors := sectors[sec := sectors[sec].(readableOnFill := v)])
    }
    function SetByteMaskOnFill(v: bool): Block { this.(byteMaskOnFill := v) }
    function SetReadable(v: bool, sec: SectorId): Block {
      this.(sectors := sectors[sec := sectors[sec].(readable := v)])
    }
    function Pin(): Block { this.(pins := pins + 1) }
    function Unpin(): Block { this.(pins := if pins > 0 then pins - 1 else 0) }
  }

  /** The cache_block_t objects of the tag array. */
  class CacheBlock {
    const kind: CacheType
    var tag: nat
    var blockAddr: nat
    var sectors: Sectors
    var byteMaskOnFill: bool
    var allocTime: nat
    var lastAccess: nat
    var pins: nat
    var dirtyBytes: set<nat>

    function Value(): Block
      reads this
    {
      Block(tag, blockAddr, sectors, byteMaskOnFill, allocTime, lastAccess, pins, dirtyBytes)
    }

    constructor (kind: CacheType)
      ensures this.kind == kind && Value() == INITIAL_BLOCK
    {
      this.kind := kind;
      tag, blockAddr, sectors, byteMaskOnFill := 0, 0, INITIAL_SECTORS, false;
      allocTime, lastAccess, pins, dirtyBytes := 0, 0, 0, {};
    }

    method Allocate(tag: nat, blockAddr: nat, time: nat, sec: SectorId)
      modifies this
      ensures Value() == old(Value()).Allocate(kind, tag, blockAddr, time, sec)
    {
      this.tag, this.blockAddr := tag, blockAddr;
      allocTime, lastAccess, byteMaskOnFill, pins := time, time, false, 0;
      if kind == SECTOR {
        sectors := INITIAL_SECTORS[sec := INITIAL_SECTOR.(status := RESERVED)];
        dirtyBytes := {};
      } else {
        sectors := sectors[sec := Sector(RESERVED, false, false, sectors[sec].readable)];
      }
    }

    method AllocateSector(time: nat, sec: SectorId)
      requires !Value().IsInvalidLine()
      modifies this
      ensures Value() == old(Value()).AllocateSector(time, sec)
    {
      sectors := sectors[sec := Sector(RESERVED, sectors[sec].status == MODIFIED, false, true)];
      lastAccess := time;
    }

    method Fill(sec: SectorId, bytes: set<nat>)
      modifies this
      ensures Value() == old(Value()).Fill(kind, sec, bytes)
    {
      var s := sectors[sec];
      s := s.(status := if s.modifiedOnFill then MODIFIED else VALID);
      if s.readableOnFill {
        s := s.(readable := true);
        if kind == SECTOR {
          s := s.(readableOnFill := false);
        }
      }
      sectors := sectors[sec := s];
      if byteMaskOnFill {
        dirtyBytes := dirtyBytes + bytes;
      }
    }

    method Touch(time: nat)
      modifies this
      ensures Value() == old(Value()).Touch(time)
    {
      lastAccess := time;
    }

    method SetStatus(st: Status, sec: SectorId)
      modifies this
      ensures Value() == old(Value()).SetStatus(st, sec)
    {
      sectors := sectors[sec := sectors[sec].(status := st)];
    }

    method SetByteMask(bytes: set<nat>)
      modifies this
      ensures Value() == old(Value()).SetByteMask(bytes)
    {
      dirtyBytes := dirtyBytes + bytes;
    }

    method SetModifiedOnFill(v: bool, sec: SectorId)
      modifies this
      ensures Value() == old(Value()).SetModifiedOnFill(v, sec)
    {
      sectors := sectors[sec := sectors[sec].(modifiedOnFill := v)];
    }

    method SetReadableOnFill(v: bool, sec: SectorId)
      modifies this
      ensures Value() == old(Value()).SetReadableOnFill(v, sec)
    {
      sectors := sectors[sec := sectors[sec].(readableOnFill := v)];
    }

    method SetByteMaskOnFill(v: bool)
      modifies this
      ensures Value() == old(Value()).SetByteMaskOnFill(v)
    {
      byteMaskOnFill := v;
    }

    method SetReadable(v: bool, sec: SectorId)
      modifies this
      ensures Value() == old(Value()).SetReadable(v, sec)
    {
      sectors := sectors[sec := sectors[sec].(readable := v)];
    }

    method Pin()
      modifies this
      ensures Value() == old(Value()).Pin()
    {
      pins := pins + 1;
    }

    method Unpin()
      requires pins > 0
      modifies this
      ensures Value() == old(Value()).Unpin()
    {
      pins := pins - 1;
    }
  }
}
