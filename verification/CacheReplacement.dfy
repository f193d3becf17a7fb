/** Replacement over whole runs: the way a miss takes is the one whose latest accepted
    access, or under FIFO whose allocation, comes first among the events. */
module CacheReplacement {
  import opened CacheTypes
  import opened TagArrays
  import opened CacheModel
  import opened CacheAdmission
  import opened CacheOperations
  import opened CacheCore
  import opened CacheEffects
  import opened CacheRuns
  import opened CacheGuarantees

  // ---- the events that use a way ----

  // an accepted access of way j: not a write hit that evicts, nor a write that allocates nothing
  ghost predicate Uses(cfg: Config, sys: CacheSystem, e: CacheEvent, j: nat) {
    && e.Access? && Sized(cfg, sys.s.tags) && ProbeFor(cfg, sys.s, e.mf).idx == j
    && match CacheAccess(cfg, sys.s, e.mf, e.time)
       case None => false
       case Some(o) =>
         match o.status
         case RESERVATION_FAIL => false
         case HIT => e.mf.isWrite ==> cfg.writePolicy != WRITE_EVICT
                                      && (cfg.writePolicy == LOCAL_WB_GLOBAL_WT ==> !e.mf.isGlobal)
         case _ => e.mf.isWrite ==> cfg.writeAllocate != NO_WRITE_ALLOCATE
  }

  // ... which gives the way to a block that no way of the set held
  ghost predicate Allots(cfg: Config, sys: CacheSystem, e: CacheEvent, j: nat) {
    Uses(cfg, sys, e, j) && forall i: nat :: InSet(cfg, cfg.BlockAddr(e.mf.addr), i) && i < |sys.s.tags.lines| ==>
      !Holds(sys.s.tags.lines[i], cfg.BlockAddr(e.mf.addr))
  }

  // position of the latest such event, counted from 1; 0 if there is none
  ghost function LastUse(cfg: Config, sys: CacheSystem, events: seq<CacheEvent>, j: nat): (n: nat)
    ensures n <= |events|
    decreases |events|
  {
    if events == [] then 0
    else match Step(cfg, sys, events[0])
      case None => 0
      case Some(next) =>
        var n := LastUse(cfg, next, events[1..], j);
        if n > 0 then n + 1 else if Uses(cfg, sys, events[0], j) then 1 else 0
  }

  ghost function LastAllot(cfg: Config, sys: CacheSystem, events: seq<CacheEvent>, j: nat): (n: nat)
    ensures n <= |events|
    decreases |events|
  {
    if events == [] then 0
    else match Step(cfg, sys, events[0])
      case None => 0
      case Some(next) =>
        var n := LastAllot(cfg, next, events[1..], j);
        if n > 0 then n + 1 else if Allots(cfg, sys, events[0], j) then 1 else 0
  }

  ghost predicate Increasing(events: seq<CacheEvent>) {
    forall i, j :: 0 <= i < j < |events| && events[i].Access? && events[j].Access? ==> events[i].time < events[j].time
  }

  // ---- one step ----

  // a way nobody was given yet
  ghost predicate Unused(b: Block) { b.IsInvalidLine() && b.pins == 0 }

  lemma TookTimes(cfg: Config, b: Block, status: RequestStatus, mf: MemFetch, time: nat)
    requires cfg.lineSize > 0 && status != RESERVATION_FAIL
    ensures var t := Took(cfg, b, status, mf, time);
      t.lastAccess == time && t.allocTime == if status == MISS then time else b.allocTime
  {
  }

  lemma AccessedTimes(cfg: Config, b: Block, mf: MemFetch, status: RequestStatus, time: nat)
    requires cfg.lineSize > 0 && status != RESERVATION_FAIL
    ensures var (w, taken) := (AccessedLine(cfg, b, mf, status, time),
        if mf.isWrite && status == HIT then !EvictsOnHit(cfg, mf) else Allocates(cfg, mf));
      && w.lastAccess == (if taken then time else b.lastAccess)
      && w.allocTime == (if taken && status == MISS then time else b.allocTime)
      && (!taken && status != HIT ==> w == b)
  {
    hide LazyBlock, UpdateReadable, Took;
    var t := Took(cfg, b, status, mf, time);
    TookTimes(cfg, b, status, mf, time);
    LazyBlockIsWritten(cfg, t, mf, status);
    UpdateReadableOnly(cfg, Written(cfg, b.Touch(time), mf), mf);
  }

  ghost predicate SameTimes(b: Block, b': Block) {
    b'.lastAccess == b.lastAccess && b'.allocTime == b.allocTime && (Unused(b) ==> Unused(b'))
  }

  lemma RestKeepsTimes(b: Block, kind: CacheType, sec: SectorId, bytes: set<nat>)
    requires b.pins > 0
    ensures SameTimes(b, b.Fill(kind, sec, bytes)) && SameTimes(b, b.Unpin())
  {
  }

  lemma MissTellsNoneHolds(cfg: Config, s: CacheState, mf: MemFetch)
    requires Sized(cfg, s.tags) && ProbeFor(cfg, s, mf).status == MISS
    ensures forall i: nat :: InSet(cfg, cfg.BlockAddr(mf.addr), i) && i < |s.tags.lines| ==>
      !Holds(s.tags.lines[i], cfg.BlockAddr(mf.addr))
  {
    BlockAddrTwice(cfg, mf.addr);
    hide ProbeTags, Config.BlockAddr, Eligible;
    ProbeMissPicksVictim(cfg, s.tags, cfg.BlockAddr(mf.addr), cfg.SectorOf(mf), mf.isWrite);
  }

  lemma FoundIsInSet(cfg: Config, s: CacheState, mf: MemFetch)
    requires Sized(cfg, s.tags)
    ensures var p := ProbeFor(cfg, s, mf);
      p.status in {HIT, HIT_RESERVED, SECTOR_MISS} ==>
        InSet(cfg, cfg.BlockAddr(mf.addr), p.idx) && Holds(s.tags.lines[p.idx], cfg.BlockAddr(mf.addr))
  {
    BlockAddrTwice(cfg, mf.addr);
    ProbeFound(cfg, s.tags, cfg.BlockAddr(mf.addr), cfg.SectorOf(mf), mf.isWrite);
  }

  lemma AccessTimes(cfg: Config, sys: CacheSystem, mf: MemFetch, time: nat, j: nat)
    requires Sized(cfg, sys.s.tags) && CacheAccess(cfg, sys.s, mf, time).Some? && j < |sys.s.tags.lines|
    ensures var (e, lines, lines') := (Access(mf, time), sys.s.tags.lines,
                                       CacheAccess(cfg, sys.s, mf, time).value.s.tags.lines);
      && |lines'| == |lines|
      && (if Uses(cfg, sys, e, j) then
            lines'[j].lastAccess == time
            && lines'[j].allocTime == (if Allots(cfg, sys, e, j) then time else lines[j].allocTime)
            && (Unused(lines[j]) ==> Allots(cfg, sys, e, j))
          else SameTimes(lines[j], lines'[j]))
  {
    hide CacheAccess, ProbeFor, AccessedLine, AccessPackets, Recorded, Config.BlockAddr, InSet;
    var (s, p) := (sys.s, ProbeFor(cfg, sys.s, mf));
    var o := CacheAccess(cfg, s, mf, time).value;
    if o.status == RESERVATION_FAIL {
      RejectionHasNoEffect(cfg, s, mf, time);
    } else {
      AccessEffect(cfg, s, mf, time);
      if j == p.idx {
        WayTimes(cfg, sys, mf, time);
      }
    }
  }

  // the way the probe named
  lemma WayTimes(cfg: Config, sys: CacheSystem, mf: MemFetch, time: nat)
    requires Sized(cfg, sys.s.tags) && CacheAccess(cfg, sys.s, mf, time).Some?
    requires CacheAccess(cfg, sys.s, mf, time).value.status
             == if ProbeFor(cfg, sys.s, mf).status == HIT then HIT else MISS
    ensures var (p, e) := (ProbeFor(cfg, sys.s, mf), Access(mf, time));
      var (b, b') := (sys.s.tags.lines[p.idx],
                      AccessedLine(cfg, sys.s.tags.lines[p.idx], mf, p.status, time));
      if Uses(cfg, sys, e, p.idx) then
        b'.lastAccess == time && b'.allocTime == (if Allots(cfg, sys, e, p.idx) then time else b.allocTime)
        && (Unused(b) ==> Allots(cfg, sys, e, p.idx))
      else SameTimes(b, b')
  {
    hide CacheAccess, ProbeFor, AccessedLine, Config.BlockAddr, InSet, WriteHitLine, WriteMissLine;
    var p := ProbeFor(cfg, sys.s, mf);
    var b := sys.s.tags.lines[p.idx];
    if p.status == RESERVATION_FAIL {
      FailedLine(cfg, sys, mf, time);
    } else {
      AccessedTimes(cfg, b, mf, p.status, time);
      FoundIsInSet(cfg, sys.s, mf);
      if p.status == MISS {
        MissTellsNoneHolds(cfg, sys.s, mf);
      }
    }
  }

  // no way was found: only a write that allocates nothing is accepted
  lemma FailedLine(cfg: Config, sys: CacheSystem, mf: MemFetch, time: nat)
    requires Sized(cfg, sys.s.tags) && CacheAccess(cfg, sys.s, mf, time).Some?
    requires CacheAccess(cfg, sys.s, mf, time).value.status == MISS
    requires ProbeFor(cfg, sys.s, mf).status == RESERVATION_FAIL
    ensures var (p, e) := (ProbeFor(cfg, sys.s, mf), Access(mf, time));
      !Uses(cfg, sys, e, p.idx)
      && AccessedLine(cfg, sys.s.tags.lines[p.idx], mf, p.status, time) == sys.s.tags.lines[p.idx]
  {
    hide ProbeFor, WrMiss, WrHit, RdMiss, TagAccess, SendRead;
  }

  lemma FillTimes(cfg: Config, s: CacheState, mf: MemFetch, j: nat)
    requires CoreInv(cfg, s) && CacheFill(cfg, s, mf).Some? && j < |s.tags.lines|
    ensures SameTimes(s.tags.lines[j], CacheFill(cfg, s, mf).value.tags.lines[j])
  {
    hide CoreInv, Block.Fill, SameTimes;
    FilledIsRecorded(cfg, s, mf);
    FillFindsItsPin(cfg, s, mf);
    RestKeepsTimes(s.tags.lines[s.extra[mf].cacheIndex], cfg.cacheType, cfg.SectorOf(mf), mf.bytes);
    SameIsSame(s.tags.lines[j]);
  }

  lemma SameIsSame(b: Block)
    ensures SameTimes(b, b)
  {
  }

  lemma NextTimes(s: CacheState, j: nat)
    requires CacheNext(s).Some? && j < |s.tags.lines|
    ensures var lines' := CacheNext(s).value.s.tags.lines;
      |lines'| == |s.tags.lines| && SameTimes(s.tags.lines[j], lines'[j])
  {
    hide Block.Unpin, SameTimes;
    var d := TakeResponse(s).value;
    SameIsSame(s.tags.lines[j]);
    if d.mf in d.s.pending {
      RestKeepsTimes(s.tags.lines[d.s.pending[d.mf]], NORMAL, 0, {});
    }
  }

  lemma StepTimes(cfg: Config, sys: CacheSystem, e: CacheEvent, j: nat)
    requires SystemInv(cfg, sys) && Step(cfg, sys, e).Some? && j < |sys.s.tags.lines|
    ensures var (lines, lines') := (sys.s.tags.lines, Step(cfg, sys, e).value.s.tags.lines);
      && |lines'| == |lines|
      && (if Uses(cfg, sys, e, j) then
            lines'[j].lastAccess == e.time
            && lines'[j].allocTime == (if Allots(cfg, sys, e, j) then e.time else lines[j].allocTime)
            && (Unused(lines[j]) ==> Allots(cfg, sys, e, j))
          else SameTimes(lines[j], lines'[j]))
  {
    hide CoreInv, CacheAccess, CacheFill, CacheNext, Step, Allots, SameTimes, EntriesInOrder;
    StepIs(cfg, sys, e);
    SameIsSame(sys.s.tags.lines[j]);
    match e {
      case Access(mf, time) => AccessTimes(cfg, sys, mf, time, j);
      case Cycle(memFull) =>
      case Fill(mf) =>
        FillTimes(cfg, sys.s, mf, j);
        FillKeepsLength(cfg, sys.s, mf);
      case Next => NextTimes(sys.s, j);
    }
  }

  lemma FillKeepsLength(cfg: Config, s: CacheState, mf: MemFetch)
    requires CacheFill(cfg, s, mf).Some?
    ensures |CacheFill(cfg, s, mf).value.tags.lines| == |s.tags.lines|
  {
  }

  // ---- runs ----

  // the recorded times of a way are those of its latest events
  ghost predicate Tells(events: seq<CacheEvent>, use: nat, allot: nat, b: Block, b': Block)
    requires use <= |events| && allot <= |events|
  {
    && (if use == 0 then b'.lastAccess == b.lastAccess
        else events[use - 1].Access? && b'.lastAccess == events[use - 1].time)
    && (if allot == 0 then b'.allocTime == b.allocTime
        else events[allot - 1].Access? && b'.allocTime == events[allot - 1].time)
    && (Unused(b) && allot == 0 ==> use == 0 && Unused(b'))
  }

  lemma {:induction false} RunTimes(cfg: Config, sys: CacheSystem, events: seq<CacheEvent>, j: nat)
    requires cfg.lineSize > 0 && SystemInv(cfg, sys) && LegalRun(cfg, sys, events) && Run(cfg, sys, events).Some?
    requires j < |sys.s.tags.lines|
    ensures j < |Run(cfg, sys, events).value.s.tags.lines|
    ensures Tells(events, LastUse(cfg, sys, events, j), LastAllot(cfg, sys, events, j), sys.s.tags.lines[j],
                  Run(cfg, sys, events).value.s.tags.lines[j])
    decreases |events|
  {
    hide SystemInv, Step, Legal, Impossible, Uses, Unused;
    if events != [] {
      StepKeepsInv(cfg, sys, events[0]);
      StepTimes(cfg, sys, events[0], j);
      RunTimes(cfg, Step(cfg, sys, events[0]).value, events[1..], j);
      UsesAreAccesses(cfg, sys, events[0], j);
    }
  }

  lemma UsesAreAccesses(cfg: Config, sys: CacheSystem, e: CacheEvent, j: nat)
    ensures Uses(cfg, sys, e, j) ==> e.Access?
  {
  }

  // an event uses one way
  lemma {:induction false} DifferentWays(cfg: Config, sys: CacheSystem, events: seq<CacheEvent>, i: nat, j: nat)
    requires i != j
    ensures LastUse(cfg, sys, events, i) > 0 ==> LastUse(cfg, sys, events, i) != LastUse(cfg, sys, events, j)
    ensures LastAllot(cfg, sys, events, i) > 0 ==> LastAllot(cfg, sys, events, i) != LastAllot(cfg, sys, events, j)
    decreases |events|
  {
    hide Step, CacheAccess, ProbeFor;
    if events != [] && Step(cfg, sys, events[0]).Some? {
      DifferentWays(cfg, Step(cfg, sys, events[0]).value, events[1..], i, j);
    }
  }

  lemma {:induction false} AllotsAreUses(cfg: Config, sys: CacheSystem, events: seq<CacheEvent>, j: nat)
    ensures LastAllot(cfg, sys, events, j) <= LastUse(cfg, sys, events, j)
    decreases |events|
  {
    hide Step, Uses;
    if events != [] && Step(cfg, sys, events[0]).Some? {
      AllotsAreUses(cfg, Step(cfg, sys, events[0]).value, events[1..], j);
    }
  }

  // what the search for a victim compared
  lemma VictimHasLeastAge(cfg: Config, s: CacheState, mf: MemFetch, j: nat)
    requires Sized(cfg, s.tags) && ProbeFor(cfg, s, mf).status == MISS && j < |s.tags.lines|
    requires InSet(cfg, cfg.BlockAddr(mf.addr), j) && Eligible(cfg, s.tags.dirty, s.tags.lines[j])
    ensures var v := s.tags.lines[ProbeFor(cfg, s, mf).idx];
      && (s.tags.lines[j].IsInvalidLine() ==> v.IsInvalidLine())
      && (!v.IsInvalidLine() ==>
            if cfg.replacement == LRU then v.lastAccess <= s.tags.lines[j].lastAccess
            else v.allocTime <= s.tags.lines[j].allocTime)
  {
    BlockAddrTwice(cfg, mf.addr);
    hide ProbeTags, Config.BlockAddr, Eligible;
    ProbeMissPicksVictim(cfg, s.tags, cfg.BlockAddr(mf.addr), cfg.SectorOf(mf), mf.isWrite);
  }

  lemma StartIsUnused(cfg: Config, j: nat)
    requires cfg.Valid() && j < |Start(cfg).s.tags.lines|
    ensures Unused(Start(cfg).s.tags.lines[j])
  {
  }

  /** Over any run with increasing times, under every policy: a miss takes an invalid way if
      an eligible one is invalid, and otherwise, under LRU, the eligible way whose latest
      accepted access comes before that of every other eligible way, and under FIFO the
      one that was given to its block first. */
  lemma VictimIsOldest(cfg: Config, events: seq<CacheEvent>, mf: MemFetch, j: nat)
    requires cfg.Valid() && LegalRun(cfg, Start(cfg), events) && Increasing(events)
    requires Run(cfg, Start(cfg), events).Some?
    requires var s := Run(cfg, Start(cfg), events).value.s;
      && Sized(cfg, s.tags) && ProbeFor(cfg, s, mf).status == MISS && j < |s.tags.lines|
      && j != ProbeFor(cfg, s, mf).idx && InSet(cfg, cfg.BlockAddr(mf.addr), j)
      && Eligible(cfg, s.tags.dirty, s.tags.lines[j])
    ensures var (s, v) := (Run(cfg, Start(cfg), events).value.s,
                           ProbeFor(cfg, Run(cfg, Start(cfg), events).value.s, mf).idx);
      && (s.tags.lines[j].IsInvalidLine() ==> s.tags.lines[v].IsInvalidLine())
      && (!s.tags.lines[v].IsInvalidLine() ==>
            if cfg.replacement == LRU
            then LastUse(cfg, Start(cfg), events, v) < LastUse(cfg, Start(cfg), events, j)
            else LastAllot(cfg, Start(cfg), events, v) < LastAllot(cfg, Start(cfg), events, j))
  {
    hide SystemInv, Run, LegalRun, LastUse, LastAllot, ProbeFor, Eligible, Start, Config.BlockAddr, InSet;
    StartInv(cfg);
    var s := Run(cfg, Start(cfg), events).value.s;
    var v := ProbeFor(cfg, s, mf).idx;
    VictimHasLeastAge(cfg, s, mf, j);
    if !s.tags.lines[v].IsInvalidLine() {
      StartHasLines(cfg, s);
      StartIsUnused(cfg, v);
      StartIsUnused(cfg, j);
      RunTimes(cfg, Start(cfg), events, v);
      RunTimes(cfg, Start(cfg), events, j);
      DifferentWays(cfg, Start(cfg), events, v, j);
      AllotsAreUses(cfg, Start(cfg), events, v);
      AllotsAreUses(cfg, Start(cfg), events, j);
    }
  }

  lemma StartHasLines(cfg: Config, s: CacheState)
    requires Sized(cfg, s.tags)
    ensures |Start(cfg).s.tags.lines| == |s.tags.lines|
  {
  }
}
