/** The tag array: way search, replacement, allocation and fill, first as
    functions on values, then as the class whose loops compute them. */
module TagArrays {
  import opened CacheTypes
  import opened Options

  datatype Tags = Tags(lines: seq<Block>, dirty: int)

  datatype ProbeResult = ProbeResult(status: RequestStatus, idx: nat)

  datatype AccessResult = AccessResult(tags: Tags, status: RequestStatus, idx: nat, evicted: Option<Evicted>)

  ghost predicate Sized(cfg: Config, tags: Tags) {
    cfg.Valid() && |tags.lines| == cfg.NumLines()
  }

  lemma SetInRange(cfg: Config, addr: nat)
    requires cfg.Valid()
    ensures cfg.SetBase(addr) + cfg.assoc <= cfg.NumLines()
  {
    var s := cfg.setIndex(addr);
    assert (s + 1) * cfg.assoc <= cfg.nset * cfg.assoc;
  }

  predicate InSet(cfg: Config, addr: nat, i: nat) {
    cfg.SetBase(addr) <= i < cfg.SetBase(addr) + cfg.assoc
  }

  // ---- way search ----

  predicate Holds(b: Block, tag: nat) { b.tag == tag && !b.IsInvalidLine() }

  function FirstMatch(lines: seq<Block>, tag: nat, lo: nat, hi: nat): (r: Option<nat>)
    requires lo <= hi <= |lines|
    ensures r.Some? ==> lo <= r.value < hi && Holds(lines[r.value], tag)
    decreases hi - lo
  {
    if lo == hi then None
    else if Holds(lines[lo], tag) then Some(lo)
    else FirstMatch(lines, tag, lo + 1, hi)
  }

  lemma {:induction false} FirstMatchIsFirst(lines: seq<Block>, tag: nat, lo: nat, hi: nat)
    requires lo <= hi <= |lines|
    ensures var r := FirstMatch(lines, tag, lo, hi);
            forall j :: lo <= j < (if r.Some? then r.value else hi) ==> !Holds(lines[j], tag)
    decreases hi - lo
  {
    if lo < hi {
      FirstMatchIsFirst(lines, tag, lo + 1, hi);
    }
  }

  // Integer form of ((float)m_dirty / lines) * 100 >= m_wr_percent
  predicate OverDirtyLimit(cfg: Config, dirty: int) { dirty * 100 >= cfg.wrPercent * cfg.NumLines() }

  predicate Eligible(cfg: Config, dirty: int, b: Block) {
    !b.IsPinned() && !b.IsReservedLine() && (!b.IsModifiedLine() || OverDirtyLimit(cfg, dirty))
  }

  function Age(cfg: Config, b: Block): nat {
    if cfg.replacement == LRU then b.lastAccess else b.allocTime
  }

  predicate FreeWay(cfg: Config, dirty: int, b: Block) { Eligible(cfg, dirty, b) && b.IsInvalidLine() }
  predicate UsedWay(cfg: Config, dirty: int, b: Block) { Eligible(cfg, dirty, b) && !b.IsInvalidLine() }

  function LastFree(cfg: Config, tags: Tags, lo: nat, hi: nat): (r: Option<nat>)
    requires lo <= hi <= |tags.lines|
    ensures r.Some? ==> lo <= r.value < hi && FreeWay(cfg, tags.dirty, tags.lines[r.value])
  {
    if lo == hi then None
    else if FreeWay(cfg, tags.dirty, tags.lines[hi - 1]) then Some(hi - 1)
    else LastFree(cfg, tags, lo, hi - 1)
  }

  lemma {:induction false} LastFreeIsComplete(cfg: Config, tags: Tags, lo: nat, hi: nat)
    requires lo <= hi <= |tags.lines| && LastFree(cfg, tags, lo, hi).None?
    ensures forall j :: lo <= j < hi ==> !FreeWay(cfg, tags.dirty, tags.lines[j])
  {
    if lo < hi {
      LastFreeIsComplete(cfg, tags, lo, hi - 1);
    }
  }

  function Oldest(cfg: Config, tags: Tags, lo: nat, hi: nat): (r: Option<nat>)
    requires lo <= hi <= |tags.lines|
    ensures r.Some? ==> lo <= r.value < hi && UsedWay(cfg, tags.dirty, tags.lines[r.value])
  {
    if lo == hi then None
    else
      var o := Oldest(cfg, tags, lo, hi - 1);
      if UsedWay(cfg, tags.dirty, tags.lines[hi - 1])
         && Age(cfg, tags.lines[hi - 1]) < (if o.Some? then Age(cfg, tags.lines[o.value]) else TIME_SENTINEL)
      then Some(hi - 1) else o
  }

  lemma {:induction false} OldestIsOldest(cfg: Config, tags: Tags, lo: nat, hi: nat)
    requires lo <= hi <= |tags.lines|
    ensures var r := Oldest(cfg, tags, lo, hi);
            forall j :: lo <= j < hi && UsedWay(cfg, tags.dirty, tags.lines[j])
              ==> (if r.Some? then Age(cfg, tags.lines[r.value]) else TIME_SENTINEL) <= Age(cfg, tags.lines[j])
  {
    if lo < hi {
      OldestIsOldest(cfg, tags, lo, hi - 1);
    }
  }

  function HitStatus(s: Sector, isWrite: bool): RequestStatus {
    match s.status
    case RESERVED => HIT_RESERVED
    case VALID => HIT
    case MODIFIED => if isWrite || s.readable then HIT else SECTOR_MISS
    case INVALID => SECTOR_MISS
  }

  function ProbeTags(cfg: Config, tags: Tags, addr: nat, sec: SectorId, isWrite: bool): (r: ProbeResult)
    requires Sized(cfg, tags)
    ensures r.idx < |tags.lines|
    ensures r.status != RESERVATION_FAIL ==> InSet(cfg, addr, r.idx)
  {
    SetInRange(cfg, addr);
    var lo := cfg.SetBase(addr);
    var hi := lo + cfg.assoc;
    match FirstMatch(tags.lines, cfg.BlockAddr(addr), lo, hi)
    case Some(i) => ProbeResult(HitStatus(tags.lines[i].sectors[sec], isWrite), i)
    case None =>
      match LastFree(cfg, tags, lo, hi)
      case Some(i) => ProbeResult(MISS, i)
      case None =>
        match Oldest(cfg, tags, lo, hi)
        case Some(i) => ProbeResult(MISS, i)
        case None => ProbeResult(RESERVATION_FAIL, lo)
  }

  ghost predicate NoneHolds(lines: seq<Block>, tag: nat, lo: nat, hi: nat)
    requires hi <= |lines|
  {
    forall j :: lo <= j < hi ==> !Holds(lines[j], tag)
  }

  lemma {:induction false} FirstMatchFrom(lines: seq<Block>, tag: nat, lo: nat, k: nat, hi: nat)
    requires lo <= k <= hi <= |lines| && NoneHolds(lines, tag, lo, k)
    ensures FirstMatch(lines, tag, lo, hi) == FirstMatch(lines, tag, k, hi)
    decreases k - lo
  {
    if lo < k {
      FirstMatchFrom(lines, tag, lo + 1, k, hi);
    }
  }

  lemma ProbeAtMatch(cfg: Config, tags: Tags, addr: nat, sec: SectorId, isWrite: bool, k: nat)
    requires Sized(cfg, tags) && InSet(cfg, addr, k) && k < |tags.lines|
    requires NoneHolds(tags.lines, cfg.BlockAddr(addr), cfg.SetBase(addr), k)
    requires Holds(tags.lines[k], cfg.BlockAddr(addr))
    ensures ProbeTags(cfg, tags, addr, sec, isWrite) == ProbeResult(HitStatus(tags.lines[k].sectors[sec], isWrite), k)
  {
    SetInRange(cfg, addr);
    FirstMatchFrom(tags.lines, cfg.BlockAddr(addr), cfg.SetBase(addr), k, cfg.SetBase(addr) + cfg.assoc);
  }

  lemma ProbeWithoutMatch(cfg: Config, tags: Tags, addr: nat, sec: SectorId, isWrite: bool)
    requires Sized(cfg, tags)
    requires cfg.SetBase(addr) + cfg.assoc <= |tags.lines|
    requires NoneHolds(tags.lines, cfg.BlockAddr(addr), cfg.SetBase(addr), cfg.SetBase(addr) + cfg.assoc)
    ensures var (lo, hi) := (cfg.SetBase(addr), cfg.SetBase(addr) + cfg.assoc);
            var (free, oldest) := (LastFree(cfg, tags, lo, hi), Oldest(cfg, tags, lo, hi));
            ProbeTags(cfg, tags, addr, sec, isWrite)
            == if free.Some? then ProbeResult(MISS, free.value)
               else if oldest.Some? then ProbeResult(MISS, oldest.value)
               else ProbeResult(RESERVATION_FAIL, lo)
  {
    var (lo, hi) := (cfg.SetBase(addr), cfg.SetBase(addr) + cfg.assoc);
    FirstMatchFrom(tags.lines, cfg.BlockAddr(addr), lo, hi, hi);
  }

  ghost predicate TimesBelowSentinel(lines: seq<Block>) {
    forall i :: 0 <= i < |lines| ==> lines[i].lastAccess < TIME_SENTINEL && lines[i].allocTime < TIME_SENTINEL
  }

  /** A MISS names the way the replacement rule asks for: nobody holds the block,
      the way is neither pinned nor reserved, it is an invalid one if there is an
      eligible invalid way, and otherwise no eligible way is older. */
  lemma ProbeMissPicksVictim(cfg: Config, tags: Tags, addr: nat, sec: SectorId, isWrite: bool)
    requires Sized(cfg, tags)
    requires ProbeTags(cfg, tags, addr, sec, isWrite).status == MISS
    ensures var v := ProbeTags(cfg, tags, addr, sec, isWrite).idx;
            && InSet(cfg, addr, v) && Eligible(cfg, tags.dirty, tags.lines[v])
            && (forall j: nat :: InSet(cfg, addr, j) && j < |tags.lines| ==> !Holds(tags.lines[j], cfg.BlockAddr(addr)))
            && (forall j: nat :: InSet(cfg, addr, j) && j < |tags.lines| && Eligible(cfg, tags.dirty, tags.lines[j]) ==>
                  if tags.lines[j].IsInvalidLine() then tags.lines[v].IsInvalidLine()
                  else tags.lines[v].IsInvalidLine() || Age(cfg, tags.lines[v]) <= Age(cfg, tags.lines[j]))
  {
    SetInRange(cfg, addr);
    var lo := cfg.SetBase(addr);
    var hi := lo + cfg.assoc;
    FirstMatchIsFirst(tags.lines, cfg.BlockAddr(addr), lo, hi);
    if LastFree(cfg, tags, lo, hi).None? {
      LastFreeIsComplete(cfg, tags, lo, hi);
    }
    OldestIsOldest(cfg, tags, lo, hi);
  }

  lemma {:induction false} LastFreeIsLast(cfg: Config, tags: Tags, lo: nat, hi: nat)
    requires lo <= hi <= |tags.lines|
    ensures var r := LastFree(cfg, tags, lo, hi);
            r.Some? ==> forall j :: r.value < j < hi ==> !FreeWay(cfg, tags.dirty, tags.lines[j])
  {
    if lo < hi {
      LastFreeIsLast(cfg, tags, lo, hi - 1);
    }
  }

  lemma {:induction false} OldestIsFirst(cfg: Config, tags: Tags, lo: nat, hi: nat)
    requires lo <= hi <= |tags.lines|
    ensures var r := Oldest(cfg, tags, lo, hi);
            r.Some? ==> forall j :: lo <= j < r.value && UsedWay(cfg, tags.dirty, tags.lines[j]) ==>
                          Age(cfg, tags.lines[r.value]) < Age(cfg, tags.lines[j])
  {
    if lo < hi {
      OldestIsFirst(cfg, tags, lo, hi - 1);
      OldestIsOldest(cfg, tags, lo, hi - 1);
    }
  }

  /** Among several eligible invalid ways the last is taken, among equally old ones the
      first. */
  lemma ProbeBreaksTies(cfg: Config, tags: Tags, addr: nat, sec: SectorId, isWrite: bool)
    requires Sized(cfg, tags) && ProbeTags(cfg, tags, addr, sec, isWrite).status == MISS
    ensures var v := ProbeTags(cfg, tags, addr, sec, isWrite).idx;
            forall j: nat :: InSet(cfg, addr, j) && j < |tags.lines| && Eligible(cfg, tags.dirty, tags.lines[j]) ==>
              if tags.lines[v].IsInvalidLine() then tags.lines[j].IsInvalidLine() ==> j <= v
              else !tags.lines[j].IsInvalidLine()
                   && (j < v ==> Age(cfg, tags.lines[v]) < Age(cfg, tags.lines[j]))
  {
    SetInRange(cfg, addr);
    var (lo, hi) := (cfg.SetBase(addr), cfg.SetBase(addr) + cfg.assoc);
    ProbeMissPicksVictim(cfg, tags, addr, sec, isWrite);
    FirstMatchIsFirst(tags.lines, cfg.BlockAddr(addr), lo, hi);
    LastFreeIsLast(cfg, tags, lo, hi);
    OldestIsFirst(cfg, tags, lo, hi);
  }

  /** The search fails only when no way is eligible, so the abort() after the
      all_reserved test is never reached. */
  lemma ProbeFailsIffNoWay(cfg: Config, tags: Tags, addr: nat, sec: SectorId, isWrite: bool)
    requires Sized(cfg, tags) && TimesBelowSentinel(tags.lines)
    ensures ProbeTags(cfg, tags, addr, sec, isWrite).status == RESERVATION_FAIL
            <==> forall j: nat :: InSet(cfg, addr, j) && j < |tags.lines| ==>
                   !Holds(tags.lines[j], cfg.BlockAddr(addr)) && !Eligible(cfg, tags.dirty, tags.lines[j])
  {
    SetInRange(cfg, addr);
    var r := ProbeTags(cfg, tags, addr, sec, isWrite);
    var lo := cfg.SetBase(addr);
    var hi := lo + cfg.assoc;
    if r.status == RESERVATION_FAIL {
      FirstMatchIsFirst(tags.lines, cfg.BlockAddr(addr), lo, hi);
      LastFreeIsComplete(cfg, tags, lo, hi);
      OldestIsOldest(cfg, tags, lo, hi);
      forall j: nat | InSet(cfg, addr, j) && j < |tags.lines|
        ensures !Holds(tags.lines[j], cfg.BlockAddr(addr)) && !Eligible(cfg, tags.dirty, tags.lines[j])
      {
        assert !FreeWay(cfg, tags.dirty, tags.lines[j]);
        assert !UsedWay(cfg, tags.dirty, tags.lines[j]);
      }
    } else {
      assert InSet(cfg, addr, r.idx);
    }
  }

  // ---- access and fill ----

  function AccessTags(cfg: Config, tags: Tags, addr: nat, time: nat, sec: SectorId, isWrite: bool): (r: AccessResult)
    requires Sized(cfg, tags)
    ensures Sized(cfg, r.tags) && r.idx < |tags.lines|
  {
    var p := ProbeTags(cfg, tags, addr, sec, isWrite);
    var b := tags.lines[p.idx];
    match p.status
    case HIT | HIT_RESERVED =>
      AccessResult(tags.(lines := tags.lines[p.idx := b.Touch(time)]), p.status, p.idx, None)
    case MISS =>
      var taken := b.Allocate(cfg.cacheType, cfg.BlockAddr(addr), cfg.BlockAddr(addr), time, sec);
      AccessResult(Tags(tags.lines[p.idx := taken], if b.IsModifiedLine() then tags.dirty - 1 else tags.dirty),
                   MISS, p.idx, if b.IsModifiedLine() then Some(b.EvictedInfo(cfg.cacheType)) else None)
    case SECTOR_MISS =>
      var grown := b.AllocateSector(time, sec);
      AccessResult(Tags(tags.lines[p.idx := grown],
                        if b.IsModifiedLine() && !grown.IsModifiedLine() then tags.dirty - 1 else tags.dirty),
                   SECTOR_MISS, p.idx, None)
    case RESERVATION_FAIL => AccessResult(tags, RESERVATION_FAIL, p.idx, None)
  }

  function FillTags(cfg: Config, tags: Tags, idx: nat, sec: SectorId, bytes: set<nat>): (r: Tags)
    requires idx < |tags.lines|
    ensures |r.lines| == |tags.lines|
  {
    var filled := tags.lines[idx].Fill(cfg.cacheType, sec, bytes);
    Tags(tags.lines[idx := filled],
         if filled.IsModifiedLine() && !tags.lines[idx].IsModifiedLine() then tags.dirty + 1 else tags.dirty)
  }

  // ---- the class ----

  // what the loop of probe() has found in the ways from lo up to hi
  ghost predicate Searched(cfg: Config, st: Tags, tag: nat, lo: nat, hi: nat, invalidLine: Option<nat>,
                           validLine: Option<nat>, validTimestamp: nat, allReserved: bool)
    requires lo <= hi <= |st.lines|
  {
    && NoneHolds(st.lines, tag, lo, hi)
    && invalidLine == LastFree(cfg, st, lo, hi) && validLine == Oldest(cfg, st, lo, hi)
    && validTimestamp == (if validLine.Some? then Age(cfg, st.lines[validLine.value]) else TIME_SENTINEL)
    && (allReserved <==> invalidLine.None? && validLine.None?)
  }

  // the replacement bookkeeping of one turn of the loop in probe
  method Consider(cfg: Config, ghost st: Tags, ghost tag: nat, dirty: int, b: Block, ghost base: nat, index: nat,
                  invalidLine: Option<nat>, validLine: Option<nat>, validTimestamp: nat, allReserved: bool)
    returns (invalidLine': Option<nat>, validLine': Option<nat>, validTimestamp': nat, allReserved': bool)
    requires base <= index < |st.lines| && b == st.lines[index] && dirty == st.dirty && !Holds(b, tag)
    requires b.lastAccess < TIME_SENTINEL && b.allocTime < TIME_SENTINEL
    requires Searched(cfg, st, tag, base, index, invalidLine, validLine, validTimestamp, allReserved)
    ensures Searched(cfg, st, tag, base, index + 1, invalidLine', validLine', validTimestamp', allReserved')
  {
    invalidLine', validLine', validTimestamp', allReserved' := invalidLine, validLine, validTimestamp, allReserved;
    if !b.IsPinned() && !b.IsReservedLine() && (!b.IsModifiedLine() || OverDirtyLimit(cfg, dirty)) {
      allReserved' := false;
      if b.IsInvalidLine() {
        invalidLine' := Some(index);
      } else {
        var age := if cfg.replacement == LRU then b.lastAccess else b.allocTime;
        if age < validTimestamp {
          validTimestamp' := age;
          validLine' := Some(index);
        }
      }
    }
  }

  // after all ways: the abort() of the original cannot be reached
  lemma SearchAnswers(cfg: Config, st: Tags, addr: nat, sec: SectorId, isWrite: bool, invalidLine: Option<nat>,
                      validLine: Option<nat>, validTimestamp: nat, allReserved: bool)
    requires Sized(cfg, st) && cfg.SetBase(addr) + cfg.assoc <= |st.lines|
    requires Searched(cfg, st, cfg.BlockAddr(addr), cfg.SetBase(addr), cfg.SetBase(addr) + cfg.assoc,
                      invalidLine, validLine, validTimestamp, allReserved)
    ensures allReserved || invalidLine.Some? || validLine.Some?
    ensures ProbeTags(cfg, st, addr, sec, isWrite)
            == if allReserved then ProbeResult(RESERVATION_FAIL, cfg.SetBase(addr))
               else if invalidLine.Some? then ProbeResult(MISS, invalidLine.value)
               else ProbeResult(MISS, validLine.value)
  {
    hide ProbeTags;
    ProbeWithoutMatch(cfg, st, addr, sec, isWrite);
  }

  class TagArray {
    const cfg: Config
    const lines: seq<CacheBlock>
    var dirty: int

    ghost predicate Valid()
      reads this, lines
    {
      && cfg.Valid() && |lines| == cfg.NumLines()
      && (forall i, j :: 0 <= i < j < |lines| ==> lines[i] != lines[j])
      && (forall i :: 0 <= i < |lines| ==> lines[i].kind == cfg.cacheType)
    }

    ghost function Contents(): (r: seq<Block>)
      reads lines
      ensures |r| == |lines|
    {
      seq(|lines|, i requires 0 <= i < |lines| reads lines => lines[i].Value())
    }

    ghost function State(): Tags
      reads this, lines
    {
      Tags(Contents(), dirty)
    }

    constructor (cfg: Config)
      requires cfg.Valid()
      ensures Valid() && fresh(lines) && this.cfg == cfg
      ensures State() == Tags(seq(cfg.NumLines(), _ => INITIAL_BLOCK), 0)
    {
      var blocks: seq<CacheBlock> := [];
      for n := 0 to cfg.NumLines()
        invariant |blocks| == n && fresh(blocks)
        invariant forall i, j :: 0 <= i < j < n ==> blocks[i] != blocks[j]
        invariant forall i :: 0 <= i < n ==> blocks[i].kind == cfg.cacheType && blocks[i].Value() == INITIAL_BLOCK
      {
        var b := new CacheBlock(cfg.cacheType);
        blocks := blocks + [b];
      }
      this.cfg := cfg;
      lines := blocks;
      dirty := 0;
      new;
      assert Contents() == seq(cfg.NumLines(), _ => INITIAL_BLOCK);
    }

    /** If only the block at idx was written, the contents changed there only. */
    twostate lemma ChangedAt(idx: nat)
      requires Valid() && idx < |lines|
      requires forall i :: 0 <= i < |lines| && i != idx ==> lines[i].Value() == old(lines[i].Value())
      ensures Contents() == old(Contents())[idx := lines[idx].Value()]
    {
    }

    method Probe(addr: nat, sec: SectorId, isWrite: bool) returns (status: RequestStatus, idx: nat)
      requires Valid() && TimesBelowSentinel(Contents())
      ensures ProbeResult(status, idx) == ProbeTags(cfg, State(), addr, sec, isWrite)
    {
      SetInRange(cfg, addr);
      var base := cfg.SetBase(addr);
      var tag := cfg.BlockAddr(addr);
      var invalidLine, validLine: Option<nat> := None, None;
      var validTimestamp := TIME_SENTINEL;
      var allReserved := true;
      ghost var st := State();
      for way := 0 to cfg.assoc
        invariant Searched(cfg, st, tag, base, base + way, invalidLine, validLine, validTimestamp, allReserved)
      {
        var index := base + way;
        var b := lines[index].Value();
        assert b == st.lines[index];
        if b.tag == tag {
          if b.sectors[sec].status != INVALID || !b.IsInvalidLine() {
            ProbeAtMatch(cfg, st, addr, sec, isWrite, index);
            return HitStatus(b.sectors[sec], isWrite), index;
          }
        }
        invalidLine, validLine, validTimestamp, allReserved :=
          Consider(cfg, st, tag, dirty, b, base, index, invalidLine, validLine, validTimestamp, allReserved);
      }
      SearchAnswers(cfg, st, addr, sec, isWrite, invalidLine, validLine, validTimestamp, allReserved);
      if allReserved {
        return RESERVATION_FAIL, base;
      }
      if invalidLine.Some? {
        return MISS, invalidLine.value;
      } else if validLine.Some? {
        return MISS, validLine.value;
      } else {
        // the original calls abort() here
        assert false;
      }
    }

    method Access(addr: nat, time: nat, sec: SectorId, isWrite: bool)
      returns (status: RequestStatus, idx: nat, evicted: Option<Evicted>)
      requires Valid() && TimesBelowSentinel(Contents())
      modifies this, lines
      ensures Valid()
      ensures AccessResult(State(), status, idx, evicted) == AccessTags(cfg, old(State()), addr, time, sec, isWrite)
    {
      hide Block.Allocate, Block.AllocateSector, Block.EvictedInfo, Block.IsModifiedLine, Block.Touch, LastFree, Oldest;
      evicted := None;
      status, idx := Probe(addr, sec, isWrite);
      var line := lines[idx];
      assert line.Value() == Contents()[idx];
      match status {
        case HIT | HIT_RESERVED =>
          line.Touch(time);
          ChangedAt(idx);
        case MISS =>
          var b := line.Value();
          if b.IsModifiedLine() {
            evicted := Some(b.EvictedInfo(cfg.cacheType));
            dirty := dirty - 1;
          }
          line.Allocate(cfg.BlockAddr(addr), cfg.BlockAddr(addr), time, sec);
          ChangedAt(idx);
        case SECTOR_MISS =>
          var before := line.Value().IsModifiedLine();
          line.AllocateSector(time, sec);
          if before && !line.Value().IsModifiedLine() {
            dirty := dirty - 1;
          }
          ChangedAt(idx);
        case RESERVATION_FAIL =>
      }
    }

    method Fill(idx: nat, sec: SectorId, bytes: set<nat>)
      requires Valid() && idx < |lines|
      modifies this, lines
      ensures Valid() && State() == FillTags(cfg, old(State()), idx, sec, bytes)
    {
      var line := lines[idx];
      assert line.Value() == Contents()[idx];
      var before := line.Value().IsModifiedLine();
      line.Fill(sec, bytes);
      if line.Value().IsModifiedLine() && !before {
        dirty := dirty + 1;
      }
      ChangedAt(idx);
    }
  }
}
