/** The lines of a cache: each block sits in its own set, at most once, and the
    dirty counter counts the modified lines.  What each step on the tag array
    does to this, and where a search finds a resident block. */
module CacheLines {
  import opened CacheTypes
  import opened Options
  import opened TagArrays
  import opened CacheModel

  // ---- addresses ----

  // a client's fetch: one sector, and the bytes of that sector
  ghost predicate WellFormed(cfg: Config, mf: MemFetch)
    requires cfg.lineSize > 0
  {
    if cfg.cacheType == SECTOR then
      && mf.sector == (mf.addr % cfg.lineSize) / SECTOR_SIZE
      && forall k :: k in mf.bytes ==> mf.sector * SECTOR_SIZE <= k < (mf.sector + 1) * SECTOR_SIZE
    else forall k :: k in mf.bytes ==> k < SECTOR_SIZE * SECTOR_CHUNK_SIZE
  }

  function AtomAddr(block: nat, sec: SectorId): nat { block + sec * SECTOR_SIZE }

  lemma MshrAddrIsAtom(cfg: Config, mf: MemFetch)
    requires cfg.Valid() && WellFormed(cfg, mf)
    ensures cfg.MshrAddr(mf.addr) == AtomAddr(cfg.BlockAddr(mf.addr), cfg.SectorOf(mf))
  {
    AlignTwice(mf.addr);
  }

  lemma AlignTwice(addr: nat)
    ensures addr - addr % 32 == addr - addr % 128 + addr % 128 / 32 * 32
  {
    var (q, r) := (addr / 128, addr % 128);
    assert addr == 32 * (4 * q + r / 32) + r % 32;
    assert addr % 32 == r % 32;
  }

  lemma AtomAddrInjective(cfg: Config, b1: nat, s1: SectorId, b2: nat, s2: SectorId)
    requires cfg.Valid() && cfg.BlockAddr(b1) == b1 && cfg.BlockAddr(b2) == b2
    requires cfg.cacheType == NORMAL ==> s1 == s2 == 0
    requires AtomAddr(b1, s1) == AtomAddr(b2, s2)
    ensures b1 == b2 && s1 == s2
  {
    if cfg.cacheType == SECTOR {
      assert b1 % 128 == 0 && b2 % 128 == 0;
    }
  }

  // ---- lines ----

  ghost predicate LineOk(cfg: Config, b: Block, i: nat)
    requires cfg.lineSize > 0
  {
    && (!b.IsInvalidLine() ==> InSet(cfg, b.tag, i) && b.blockAddr == b.tag && cfg.BlockAddr(b.tag) == b.tag)
    && (cfg.cacheType == NORMAL ==>
          b.sectors[0].readable && b.sectors[1] == INITIAL_SECTOR && b.sectors[2] == INITIAL_SECTOR
          && b.sectors[3] == INITIAL_SECTOR)
  }

  ghost predicate SameBlock(b: Block, c: Block) {
    !b.IsInvalidLine() && !c.IsInvalidLine() && b.tag == c.tag
  }

  ghost predicate LinesOk(cfg: Config, lines: seq<Block>)
    requires cfg.lineSize > 0
  {
    && (forall i :: 0 <= i < |lines| ==> LineOk(cfg, lines[i], i))
    && (forall i, j :: 0 <= i < |lines| && 0 <= j < |lines| && i != j ==> !SameBlock(lines[i], lines[j]))
  }

  function CountModified(lines: seq<Block>): nat {
    if lines == [] then 0
    else (if lines[0].IsModifiedLine() then 1 else 0) + CountModified(lines[1..])
  }

  lemma {:induction false} CountAfterUpdate(lines: seq<Block>, i: nat, b: Block)
    requires i < |lines|
    ensures CountModified(lines[i := b]) + (if lines[i].IsModifiedLine() then 1 else 0)
            == CountModified(lines) + (if b.IsModifiedLine() then 1 else 0)
  {
    if i > 0 {
      assert lines[i := b][1..] == lines[1..][i - 1 := b];
      CountAfterUpdate(lines[1..], i - 1, b);
    } else {
      assert lines[i := b][1..] == lines[1..];
    }
  }

  ghost predicate DirtyExact(tags: Tags) { tags.dirty == CountModified(tags.lines) }

  ghost predicate TagsOk(cfg: Config, tags: Tags) {
    Sized(cfg, tags) && LinesOk(cfg, tags.lines) && TimesBelowSentinel(tags.lines) && DirtyExact(tags)
  }

  /** A search finds a resident block where it is, and reports its sector. */
  lemma ProbeFinds(cfg: Config, tags: Tags, addr: nat, sec: SectorId, isWrite: bool, i: nat)
    requires Sized(cfg, tags) && LinesOk(cfg, tags.lines) && i < |tags.lines|
    requires Holds(tags.lines[i], cfg.BlockAddr(addr)) && cfg.BlockAddr(addr) == addr
    ensures ProbeTags(cfg, tags, addr, sec, isWrite)
            == ProbeResult(HitStatus(tags.lines[i].sectors[sec], isWrite), i)
  {
    SetInRange(cfg, addr);
    assert LineOk(cfg, tags.lines[i], i);
    assert NoneHolds(tags.lines, addr, cfg.SetBase(addr), i);
    ProbeAtMatch(cfg, tags, addr, sec, isWrite, i);
  }

  /** Conversely, any answer but MISS and RESERVATION_FAIL is about the line that
      holds the block, and those two mean that no line does. */
  lemma ProbeIsRight(cfg: Config, tags: Tags, addr: nat, sec: SectorId, isWrite: bool)
    requires Sized(cfg, tags) && LinesOk(cfg, tags.lines) && cfg.BlockAddr(addr) == addr
    ensures var p := ProbeTags(cfg, tags, addr, sec, isWrite);
            if p.status == MISS || p.status == RESERVATION_FAIL
            then forall j :: 0 <= j < |tags.lines| ==> !Holds(tags.lines[j], addr)
            else Holds(tags.lines[p.idx], addr) && p.status == HitStatus(tags.lines[p.idx].sectors[sec], isWrite)
  {
    var p := ProbeTags(cfg, tags, addr, sec, isWrite);
    forall j: nat | j < |tags.lines| && Holds(tags.lines[j], addr)
      ensures p == ProbeResult(HitStatus(tags.lines[j].sectors[sec], isWrite), j)
    {
      ProbeFinds(cfg, tags, addr, sec, isWrite, j);
    }
  }

  lemma LinesAfterUpdate(cfg: Config, lines: seq<Block>, i: nat, b: Block)
    requires cfg.lineSize > 0 && LinesOk(cfg, lines) && i < |lines| && LineOk(cfg, b, i)
    requires !b.IsInvalidLine() ==> forall j :: 0 <= j < |lines| && j != i ==> !Holds(lines[j], b.tag)
    ensures LinesOk(cfg, lines[i := b])
  {
  }

  // the same block with other sector states keeps the tag rules
  lemma SameTagKeepsLines(cfg: Config, lines: seq<Block>, i: nat, b: Block)
    requires cfg.lineSize > 0 && LinesOk(cfg, lines) && i < |lines|
    requires !lines[i].IsInvalidLine() && b.tag == lines[i].tag && b.blockAddr == lines[i].blockAddr
    requires cfg.cacheType == NORMAL ==> LineOk(cfg, b, i)
    ensures LinesOk(cfg, lines[i := b])
  {
    assert LineOk(cfg, lines[i], i);
    assert forall j :: 0 <= j < |lines| && j != i ==> !Holds(lines[j], b.tag);
    LinesAfterUpdate(cfg, lines, i, b);
  }

  // ---- steps ----

  // one line replaced; the counter follows
  lemma TagsAfterUpdate(cfg: Config, tags: Tags, i: nat, b: Block, dirty: int)
    requires TagsOk(cfg, tags) && i < |tags.lines|
    requires LinesOk(cfg, tags.lines[i := b]) && b.lastAccess < TIME_SENTINEL && b.allocTime < TIME_SENTINEL
    requires dirty == tags.dirty + (if b.IsModifiedLine() then 1 else 0)
                                 - (if tags.lines[i].IsModifiedLine() then 1 else 0)
    ensures TagsOk(cfg, Tags(tags.lines[i := b], dirty))
  {
    CountAfterUpdate(tags.lines, i, b);
  }

  // same block, other sector states
  lemma TagsAfterSameBlock(cfg: Config, tags: Tags, i: nat, b: Block, dirty: int)
    requires TagsOk(cfg, tags) && i < |tags.lines| && !tags.lines[i].IsInvalidLine()
    requires b.tag == tags.lines[i].tag && b.blockAddr == tags.lines[i].blockAddr
    requires cfg.cacheType == NORMAL ==> LineOk(cfg, b, i)
    requires b.lastAccess < TIME_SENTINEL && b.allocTime < TIME_SENTINEL
    requires dirty == tags.dirty + (if b.IsModifiedLine() then 1 else 0)
                                 - (if tags.lines[i].IsModifiedLine() then 1 else 0)
    ensures TagsOk(cfg, Tags(tags.lines[i := b], dirty))
  {
    hide LineOk, CountModified;
    SameTagKeepsLines(cfg, tags.lines, i, b);
    TagsAfterUpdate(cfg, tags, i, b, dirty);
  }

  // what tag_array::access did to the line it chose
  ghost predicate Accessed(cfg: Config, tags: Tags, mf: MemFetch, time: nat, r: AccessResult)
    requires Sized(cfg, tags) && r.idx < |tags.lines|
  {
    var (b, block) := (tags.lines[r.idx], cfg.BlockAddr(mf.addr));
    var sec := cfg.SectorOf(mf);
    && |r.tags.lines| == |tags.lines|
    && match r.status
       case HIT | HIT_RESERVED =>
         r.evicted.None? && Holds(b, block) && HitStatus(b.sectors[sec], mf.isWrite) == r.status
         && r.tags.lines == tags.lines[r.idx := b.Touch(time)]
       case SECTOR_MISS =>
         r.evicted.None? && Holds(b, block) && HitStatus(b.sectors[sec], mf.isWrite) == SECTOR_MISS
         && cfg.cacheType == SECTOR && r.tags.lines == tags.lines[r.idx := b.AllocateSector(time, sec)]
       case MISS =>
         !b.IsPinned() && !b.IsReservedLine()
         && (forall j :: 0 <= j < |tags.lines| ==> !Holds(tags.lines[j], block))
         && r.evicted == (if b.IsModifiedLine() then Some(b.EvictedInfo(cfg.cacheType)) else None)
         && r.tags.lines == tags.lines[r.idx := b.Allocate(cfg.cacheType, block, block, time, sec)]
       case RESERVATION_FAIL => r.evicted.None? && r.tags == tags
  }

  lemma AccessKeepsTags(cfg: Config, tags: Tags, idx: nat, mf: MemFetch, time: nat)
    requires TagsOk(cfg, tags) && idx < |tags.lines| && time < TIME_SENTINEL
    ensures TagAccess(cfg, tags, idx, mf, time).Some?
    ensures var r := TagAccess(cfg, tags, idx, mf, time).value;
            && r.status == ProbeTags(cfg, tags, cfg.BlockAddr(mf.addr), cfg.SectorOf(mf), mf.isWrite).status
            && (r.status != RESERVATION_FAIL ==>
                  r.idx == ProbeTags(cfg, tags, cfg.BlockAddr(mf.addr), cfg.SectorOf(mf), mf.isWrite).idx)
            && Accessed(cfg, tags, mf, time, r) && TagsOk(cfg, r.tags)
  {
    hide ProbeTags, CountModified;
    var (block, sec) := (cfg.BlockAddr(mf.addr), cfg.SectorOf(mf));
    BlockAddrTwice(cfg, mf.addr);
    var p := ProbeTags(cfg, tags, block, sec, mf.isWrite);
    ProbeIsRight(cfg, tags, block, sec, mf.isWrite);
    var b := tags.lines[p.idx];
    assert LineOk(cfg, b, p.idx);
    match p.status {
      case HIT | HIT_RESERVED =>
        TagsAfterSameBlock(cfg, tags, p.idx, b.Touch(time), tags.dirty);
      case SECTOR_MISS =>
        assert cfg.cacheType == SECTOR;
        TagsAfterSameBlock(cfg, tags, p.idx, b.AllocateSector(time, sec),
                           if b.IsModifiedLine() && !b.AllocateSector(time, sec).IsModifiedLine() then tags.dirty - 1
                           else tags.dirty);
      case MISS =>
        ProbeMissPicksVictim(cfg, tags, block, sec, mf.isWrite);
        var taken := b.Allocate(cfg.cacheType, block, block, time, sec);
        LinesAfterUpdate(cfg, tags.lines, p.idx, taken);
        TagsAfterUpdate(cfg, tags, p.idx, taken, if b.IsModifiedLine() then tags.dirty - 1 else tags.dirty);
      case RESERVATION_FAIL =>
    }
  }

  lemma WriteKeepsTags(cfg: Config, tags: Tags, idx: nat, mf: MemFetch)
    requires TagsOk(cfg, tags) && idx < |tags.lines| && !tags.lines[idx].IsInvalidLine()
    ensures TagsOk(cfg, WriteInto(cfg, tags, idx, mf))
  {
    hide CountModified;
    var b := tags.lines[idx];
    assert LineOk(cfg, b, idx);
    var written := b.SetStatus(MODIFIED, cfg.SectorOf(mf)).SetByteMask(mf.bytes);
    TagsAfterSameBlock(cfg, tags, idx, written, if b.IsModifiedLine() then tags.dirty else tags.dirty + 1);
  }

  lemma FillKeepsTags(cfg: Config, tags: Tags, idx: nat, sec: SectorId, bytes: set<nat>)
    requires TagsOk(cfg, tags) && idx < |tags.lines| && !tags.lines[idx].IsInvalidLine()
    requires cfg.cacheType == NORMAL ==> sec == 0
    requires tags.lines[idx].sectors[sec].status == MODIFIED ==> tags.lines[idx].sectors[sec].modifiedOnFill
    ensures TagsOk(cfg, FillTags(cfg, tags, idx, sec, bytes))
  {
    hide CountModified;
    var b := tags.lines[idx];
    assert LineOk(cfg, b, idx);
    var filled := b.Fill(cfg.cacheType, sec, bytes);
    TagsAfterSameBlock(cfg, tags, idx, filled,
                       if filled.IsModifiedLine() && !b.IsModifiedLine() then tags.dirty + 1 else tags.dirty);
  }
}
