/** Two guarantees over whole runs: a write-back cache loses no accepted write,
    and a cache that is no longer fed drains completely, whatever its policies. */
module CacheGuarantees {
  import opened CacheTypes
  import opened Options
  import opened TagArrays
  import opened CacheModel
  import opened CacheLines
  import opened CacheAdmission
  import opened CacheInvariant
  import opened CacheOperations
  import opened CacheReturns
  import opened CacheCore
  import opened CacheEffects
  import opened CacheDurability
  import opened CacheTraffic
  import opened CacheRuns

  // ---- no accepted write is lost ----

  // byte k of the block is dirty in its line, or was queued after the first n packets
  ghost predicate Safe(cfg: Config, sys: CacheSystem, n: nat, block: nat, k: nat)
    requires cfg.lineSize > 0
  {
    Resident(cfg, sys.s.tags.lines, block, k) || (n <= |sys.queued| && Carried(cfg, sys.queued[n..], block, k))
  }

  lemma CarriedLonger(cfg: Config, q: seq<Packet>, n: nat, more: seq<Packet>, block: nat, k: nat)
    requires cfg.lineSize > 0 && n <= |q|
    requires Carried(cfg, q[n..], block, k) || Carried(cfg, more, block, k)
    ensures Carried(cfg, (q + more)[n..], block, k)
  {
    hide Carries;
    assert (q + more)[n..] == q[n..] + more;
    var p :| (p in q[n..] || p in more) && Carries(cfg, p, block, k);
    assert p in q[n..] + more;
  }

  // ... or the fetch of the store that wrote it will bring it
  ghost predicate Kept(cfg: Config, sys: CacheSystem, n: nat, block: nat, k: nat)
    requires cfg.lineSize > 0
  {
    Safe(cfg, sys, n, block, k) || Arriving(cfg, sys.s, block, k)
  }

  /** The events that drop byte k of a block from its line without carrying it down. */
  ghost predicate Overwrites(cfg: Config, sys: CacheSystem, e: CacheEvent, block: nat, k: nat) {
    Sized(cfg, sys.s.tags) &&
    match e
    case Access(mf, _) => Drops(cfg, sys.s, mf, block, k)
    case Fill(mf) =>
      mf in sys.s.extra && sys.s.extra[mf].cacheIndex < |sys.s.tags.lines|
      && FillDrops(cfg, sys.s.tags.lines[sys.s.extra[mf].cacheIndex], mf, block, k)
    case _ => false
  }

  // no event of the run does
  ghost predicate Spares(cfg: Config, sys: CacheSystem, events: seq<CacheEvent>, block: nat, k: nat)
    decreases |events|
  {
    events == [] ||
    (!Overwrites(cfg, sys, events[0], block, k) &&
     match Step(cfg, sys, events[0])
     case None => true
     case Some(next) => Spares(cfg, next, events[1..], block, k))
  }

  lemma QueuedIs(cfg: Config, sys: CacheSystem, e: CacheEvent)
    requires Step(cfg, sys, e).Some?
    ensures var next := Step(cfg, sys, e).value;
      next.queued == if e.Access? then sys.queued + Added(sys.s, next.s) else sys.queued
  {
    hide CacheAccess, CacheNext, CacheFill, CacheCycle, Added;
  }

  lemma CarriedStays(cfg: Config, sys: CacheSystem, e: CacheEvent, n: nat, block: nat, k: nat)
    requires cfg.lineSize > 0 && n <= |sys.queued| && Step(cfg, sys, e).Some?
    requires Carried(cfg, sys.queued[n..], block, k)
             || (e.Access? && Carried(cfg, Added(sys.s, Step(cfg, sys, e).value.s), block, k))
    ensures Carried(cfg, Step(cfg, sys, e).value.queued[n..], block, k)
  {
    hide Carried, Step, Added;
    QueuedIs(cfg, sys, e);
    if e.Access? {
      CarriedLonger(cfg, sys.queued, n, Added(sys.s, Step(cfg, sys, e).value.s), block, k);
    }
  }

  // what a step does to the cache
  lemma StepIs(cfg: Config, sys: CacheSystem, e: CacheEvent)
    requires Step(cfg, sys, e).Some?
    ensures Sized(cfg, sys.s.tags)
    ensures var s' := Step(cfg, sys, e).value.s;
      match e
      case Access(mf, time) =>
        CacheAccess(cfg, sys.s, mf, time).Some? && CacheAccess(cfg, sys.s, mf, time).value.s == s'
      case Cycle(memFull) => s'.tags == sys.s.tags && s'.extra == sys.s.extra
      case Fill(mf) => CacheFill(cfg, sys.s, mf) == Some(s')
      case Next => CacheNext(sys.s).Some? && CacheNext(sys.s).value.s == s'
  {
    hide CacheAccess, CacheNext, CacheFill, Sized;
  }

  /** A dirty byte stays in its line or is carried down, unless the event overwrites it. */
  lemma StepStaysSafe(cfg: Config, sys: CacheSystem, e: CacheEvent, n: nat, block: nat, k: nat)
    requires cfg.lineSize > 0 && SystemInv(cfg, sys) && cfg.writePolicy != READ_ONLY
    requires n <= |sys.queued| && Safe(cfg, sys, n, block, k) && Step(cfg, sys, e).Some?
    requires !Overwrites(cfg, sys, e, block, k)
    ensures Safe(cfg, Step(cfg, sys, e).value, n, block, k)
  {
    hide CoreInv, Resident, Carried, EntriesInOrder, CacheNext, CacheAccess, CacheFill, Step, Drops, FillDrops, Sized,
         Reads;
    QueuedGrows(cfg, sys, e);
    StepIs(cfg, sys, e);
    if Resident(cfg, sys.s.tags.lines, block, k) {
      match e {
        case Access(mf, time) =>
          AccessSavesDirty(cfg, sys.s, mf, time, block, k);
          if Carried(cfg, Added(sys.s, Step(cfg, sys, e).value.s), block, k) {
            CarriedStays(cfg, sys, e, n, block, k);
          }
        case Cycle(memFull) =>
        case Fill(mf) =>
          FilledIsRecorded(cfg, sys.s, mf);
          FillSavesDirty(cfg, sys.s, mf, block, k);
        case Next => NextSavesDirty(cfg, sys.s, block, k);
      }
    } else {
      CarriedStays(cfg, sys, e, n, block, k);
    }
  }

  lemma FilledIsRecorded(cfg: Config, s: CacheState, mf: MemFetch)
    requires CacheFill(cfg, s, mf).Some?
    ensures mf in s.extra && s.extra[mf].cacheIndex < |s.tags.lines|
  {
  }

  // a byte on its way: it still is, or has become safe
  lemma StepKeepsArriving(cfg: Config, sys: CacheSystem, e: CacheEvent, n: nat, f: MemFetch, block: nat, k: nat)
    requires cfg.lineSize > 0 && SystemInv(cfg, sys) && Legal(cfg, sys, e) && cfg.writePolicy != READ_ONLY
    requires n <= |sys.queued| && ArrivesWith(cfg, sys.s, f, block, k) && Step(cfg, sys, e).Some?
    requires !Overwrites(cfg, sys, e, block, k)
    ensures Kept(cfg, Step(cfg, sys, e).value, n, block, k)
  {
    hide CoreInv, Resident, Carried, EntriesInOrder, CacheNext, CacheAccess, CacheFill, Step, Drops, FillDrops, Sized,
         Reads, ArrivesWith, Presentable;
    QueuedGrows(cfg, sys, e);
    StepIs(cfg, sys, e);
    var next := Step(cfg, sys, e).value;
    match e {
      case Access(mf, time) =>
        AccessKeepsArriving(cfg, sys.s, mf, time, f, block, k);
        if Carried(cfg, Added(sys.s, next.s), block, k) {
          CarriedStays(cfg, sys, e, n, block, k);
        }
      case Cycle(memFull) => CycleKeepsArriving(cfg, sys.s, next.s, f, block, k);
      case Fill(mf) =>
        FilledIsRecorded(cfg, sys.s, mf);
        if mf == f {
          ArrivalIsResident(cfg, sys.s, f, block, k);
        } else {
          FillKeepsArriving(cfg, sys.s, mf, f, block, k);
        }
      case Next => NextKeepsArriving(cfg, sys.s, f, block, k);
    }
  }

  lemma CycleKeepsArriving(cfg: Config, s: CacheState, s': CacheState, f: MemFetch, block: nat, k: nat)
    requires cfg.lineSize > 0 && ArrivesWith(cfg, s, f, block, k) && s'.tags == s.tags && s'.extra == s.extra
    ensures ArrivesWith(cfg, s', f, block, k)
  {
  }

  lemma {:induction false} RunStaysKept(cfg: Config, sys: CacheSystem, events: seq<CacheEvent>, n: nat, block: nat,
                                        k: nat)
    requires cfg.lineSize > 0 && SystemInv(cfg, sys) && LegalRun(cfg, sys, events) && cfg.writePolicy != READ_ONLY
    requires n <= |sys.queued| && Spares(cfg, sys, events, block, k) && Run(cfg, sys, events).Some?
    ensures Safe(cfg, sys, n, block, k) ==> Safe(cfg, Run(cfg, sys, events).value, n, block, k)
    ensures Kept(cfg, sys, n, block, k) ==> Kept(cfg, Run(cfg, sys, events).value, n, block, k)
    decreases |events|
  {
    hide SystemInv, Step, Legal, Safe, Impossible, Overwrites, ArrivesWith;
    if events != [] {
      StepKeepsInv(cfg, sys, events[0]);
      QueuedGrows(cfg, sys, events[0]);
      if Safe(cfg, sys, n, block, k) {
        StepStaysSafe(cfg, sys, events[0], n, block, k);
      } else if Arriving(cfg, sys.s, block, k) {
        var f :| ArrivesWith(cfg, sys.s, f, block, k);
        StepKeepsArriving(cfg, sys, events[0], n, f, block, k);
      }
      RunStaysKept(cfg, Step(cfg, sys, events[0]).value, events[1..], n, block, k);
    }
  }

  lemma {:induction false} RunStaysCarried(cfg: Config, sys: CacheSystem, events: seq<CacheEvent>, n: nat, block: nat,
                                           k: nat)
    requires cfg.lineSize > 0 && Run(cfg, sys, events).Some?
    requires n <= |sys.queued| && Carried(cfg, sys.queued[n..], block, k)
    ensures Safe(cfg, Run(cfg, sys, events).value, n, block, k)
    decreases |events|
  {
    hide Step, Carried, Resident;
    if events != [] {
      QueuedGrows(cfg, sys, events[0]);
      CarriedStays(cfg, sys, events[0], n, block, k);
      RunStaysCarried(cfg, Step(cfg, sys, events[0]).value, events[1..], n, block, k);
    }
  }

  ghost predicate AcceptsWrite(cfg: Config, sys: CacheSystem, mf: MemFetch, time: nat) {
    && Sized(cfg, sys.s.tags) && mf.isWrite && CacheAccess(cfg, sys.s, mf, time).Some?
    && CacheAccess(cfg, sys.s, mf, time).value.status != RESERVATION_FAIL
  }

  /** Right after it was accepted each byte of a write is kept, unless the write's fetch
      was merged into an MSHR entry. */
  lemma AcceptedWriteIsKept(cfg: Config, sys: CacheSystem, mf: MemFetch, time: nat, k: nat)
    requires SystemInv(cfg, sys) && Presentable(cfg, sys.s, mf, time) && AcceptsWrite(cfg, sys, mf, time)
             && k in mf.bytes
    ensures Step(cfg, sys, Access(mf, time)).Some?
    ensures var (sys', block) := (Step(cfg, sys, Access(mf, time)).value, cfg.BlockAddr(mf.addr));
      && (!Merges(cfg, sys.s, mf) ==> Kept(cfg, sys', |sys.queued|, block, k))
      && (!Defers(cfg, mf, ProbeFor(cfg, sys.s, mf).status) ==> Safe(cfg, sys', |sys.queued|, block, k))
  {
    hide CoreInv, CacheAccess, Resident, Carried, Owed, EntriesInOrder, Config.BlockAddr, ArrivesWith, ProbeFor, Reads,
         Config.MshrAddr, IsFull;
    var (o, block) := (CacheAccess(cfg, sys.s, mf, time).value, cfg.BlockAddr(mf.addr));
    AcceptedWriteIsSaved(cfg, sys.s, mf, time, k);
    assert (sys.queued + Added(sys.s, o.s))[|sys.queued|..] == Added(sys.s, o.s);
  }

  // a run that goes on after an accepted write
  lemma RunThroughWrite(cfg: Config, before: seq<CacheEvent>, mf: MemFetch, time: nat, later: seq<CacheEvent>)
    requires cfg.Valid() && LegalRun(cfg, Start(cfg), before + ([Access(mf, time)] + later))
    requires Run(cfg, Start(cfg), before).Some?
    requires Step(cfg, Run(cfg, Start(cfg), before).value, Access(mf, time)).Some?
    ensures var at := Run(cfg, Start(cfg), before).value;
      var next := Step(cfg, at, Access(mf, time)).value;
      && SystemInv(cfg, at) && Presentable(cfg, at.s, mf, time) && SystemInv(cfg, next) && LegalRun(cfg, next, later)
      && |at.queued| <= |next.queued|
      && Run(cfg, Start(cfg), before + ([Access(mf, time)] + later)) == Run(cfg, next, later)
  {
    hide SystemInv, Step, Presentable, Start, Impossible;
    StartInv(cfg);
    var rest := [Access(mf, time)] + later;
    RunConcat(cfg, Start(cfg), before, rest);
    RunKeepsInv(cfg, Start(cfg), before);
    var at := Run(cfg, Start(cfg), before).value;
    assert rest[0] == Access(mf, time) && rest[1..] == later;
    assert Legal(cfg, at, Access(mf, time));
    StepKeepsInv(cfg, at, Access(mf, time));
    QueuedGrows(cfg, at, Access(mf, time));
  }

  /** Under every write policy and every allocation policy, a byte of an accepted write is
      at every later time dirty in the line of its block, carried by a packet queued no
      earlier than the write, or still to be brought by the write's own fetch, unless that
      fetch was merged into an MSHR entry or one of the events that drop bytes, each of
      which can be told before it happens, hit the byte.  A cache that has drained waits
      for no fetch. */
  lemma AcceptedWriteIsLostOnlyWhen(cfg: Config, before: seq<CacheEvent>, mf: MemFetch, time: nat,
                                    later: seq<CacheEvent>, k: nat)
    requires cfg.Valid() && LegalRun(cfg, Start(cfg), before + ([Access(mf, time)] + later)) && k in mf.bytes
    requires Run(cfg, Start(cfg), before).Some? && AcceptsWrite(cfg, Run(cfg, Start(cfg), before).value, mf, time)
    requires Run(cfg, Start(cfg), before + ([Access(mf, time)] + later)).Some?
    ensures var (at, end, block) := (Run(cfg, Start(cfg), before).value,
        Run(cfg, Start(cfg), before + ([Access(mf, time)] + later)).value, cfg.BlockAddr(mf.addr));
      && Step(cfg, at, Access(mf, time)).Some?
      && (!Merges(cfg, at.s, mf) && Spares(cfg, Step(cfg, at, Access(mf, time)).value, later, block, k) ==>
            Kept(cfg, end, |at.queued|, block, k)
            && (QueuesEmpty(end.s) ==> Safe(cfg, end, |at.queued|, block, k)))
  {
    hide SystemInv, Step, Safe, CacheAccess, AcceptsWrite, Presentable, Start, Config.BlockAddr, Merges, Spares, Run,
         LegalRun, ArrivesWith;
    var at := Run(cfg, Start(cfg), before).value;
    AcceptedIsPossible(cfg, at, mf, time);
    RunThroughWrite(cfg, before, mf, time, later);
    AcceptedIsWritable(cfg, at, mf, time);
    var next := Step(cfg, at, Access(mf, time)).value;
    if !Merges(cfg, at.s, mf) && Spares(cfg, next, later, cfg.BlockAddr(mf.addr), k) {
      AcceptedWriteIsKept(cfg, at, mf, time, k);
      RunStaysKept(cfg, next, later, |at.queued|, cfg.BlockAddr(mf.addr), k);
      NothingArrivesAtRest(cfg, Run(cfg, next, later).value.s, cfg.BlockAddr(mf.addr), k);
    }
  }

  lemma AcceptedIsPossible(cfg: Config, sys: CacheSystem, mf: MemFetch, time: nat)
    requires AcceptsWrite(cfg, sys, mf, time)
    ensures Sized(cfg, sys.s.tags) && Step(cfg, sys, Access(mf, time)).Some?
  {
    hide CacheAccess, Sized;
  }

  lemma AcceptedIsWritable(cfg: Config, sys: CacheSystem, mf: MemFetch, time: nat)
    requires AcceptsWrite(cfg, sys, mf, time)
    ensures cfg.writePolicy != READ_ONLY
  {
  }

  lemma NothingArrivesAtRest(cfg: Config, s: CacheState, block: nat, k: nat)
    requires cfg.lineSize > 0
    ensures QueuesEmpty(s) ==> !Arriving(cfg, s, block, k)
  {
  }

  // a covered write-back cache drops nothing
  lemma {:induction false} CoveredSpares(cfg: Config, sys: CacheSystem, events: seq<CacheEvent>, block: nat, k: nat)
    requires cfg.lineSize > 0 && SystemInv(cfg, sys) && CacheInv(cfg, sys.s) && LegalRun(cfg, sys, events)
    requires cfg.writePolicy == WRITE_BACK
    ensures Spares(cfg, sys, events, block, k)
    decreases |events|
  {
    hide SystemInv, CacheInv, Step, Legal, Impossible, Drops, FillDrops;
    if events != [] {
      StepKeepsInv(cfg, sys, events[0]);
      StepKeepsCovered(cfg, sys, events[0]);
      match events[0] {
        case Access(mf, time) => CoveredDropsNothing(cfg, sys.s, mf, block, k);
        case Fill(mf) => CoveredDropsNothing(cfg, sys.s, mf, block, k);
        case Cycle(memFull) =>
        case Next =>
      }
      CoveredSpares(cfg, Step(cfg, sys, events[0]).value, events[1..], block, k);
    }
  }

  /** No accepted write is lost under the covered policies: in any run, after a write was
      accepted, each of its bytes is at every later time dirty in the resident line of its
      block or carried by a packet queued no earlier than the write. */
  lemma NoAcceptedWriteIsLost(cfg: Config, before: seq<CacheEvent>, mf: MemFetch, time: nat, later: seq<CacheEvent>,
                              k: nat)
    requires Covered(cfg)
    requires LegalRun(cfg, Start(cfg), before + ([Access(mf, time)] + later))
    requires Run(cfg, Start(cfg), before).Some? ==> AcceptsWrite(cfg, Run(cfg, Start(cfg), before).value, mf, time)
    requires k in mf.bytes
    ensures Run(cfg, Start(cfg), before).Some? && Run(cfg, Start(cfg), before + ([Access(mf, time)] + later)).Some?
    ensures var (at, end) := (Run(cfg, Start(cfg), before).value,
                              Run(cfg, Start(cfg), before + ([Access(mf, time)] + later)).value);
            Safe(cfg, end, |at.queued|, cfg.BlockAddr(mf.addr), k)
  {
    hide SystemInv, CacheInv, Step, Safe, CacheAccess, AcceptsWrite, Presentable, Start, Config.BlockAddr, Covered,
         Impossible, ProbeFor, Spares, Legal, Carried;
    CoveredIsValid(cfg);
    StartInv(cfg);
    StartIsCovered(cfg);
    RunConcat(cfg, Start(cfg), before, [Access(mf, time)] + later);
    RunKeepsCovered(cfg, Start(cfg), before);
    var (at, block) := (Run(cfg, Start(cfg), before).value, cfg.BlockAddr(mf.addr));
    AcceptedIsPossible(cfg, at, mf, time);
    RunThroughWrite(cfg, before, mf, time, later);
    AcceptedWriteIsKept(cfg, at, mf, time, k);
    var next := Step(cfg, at, Access(mf, time)).value;
    AcceptedKeepsCovered(cfg, at, mf, time);
    RunKeepsCovered(cfg, next, later);
    CoveredWrites(cfg, at, mf, time, k);
    if cfg.writePolicy == WRITE_BACK {
      CoveredSpares(cfg, next, later, block, k);
      RunStaysKept(cfg, next, later, |at.queued|, block, k);
    } else {
      RunStaysCarried(cfg, next, later, |at.queued|, block, k);
    }
  }

  lemma AcceptedKeepsCovered(cfg: Config, sys: CacheSystem, mf: MemFetch, time: nat)
    requires SystemInv(cfg, sys) && CacheInv(cfg, sys.s) && cfg.lineSize > 0 && Presentable(cfg, sys.s, mf, time)
    ensures Step(cfg, sys, Access(mf, time)).Some? && CacheInv(cfg, Step(cfg, sys, Access(mf, time)).value.s)
  {
    hide SystemInv, CacheInv, Step, Presentable;
    StepKeepsCovered(cfg, sys, Access(mf, time));
  }

  // a covered cache writes back, or sends every write down at once
  lemma CoveredWrites(cfg: Config, sys: CacheSystem, mf: MemFetch, time: nat, k: nat)
    requires Covered(cfg) && AcceptsWrite(cfg, sys, mf, time) && k in mf.bytes
    requires Step(cfg, sys, Access(mf, time)).Some?
    ensures !Defers(cfg, mf, ProbeFor(cfg, sys.s, mf).status)
    ensures cfg.writePolicy != WRITE_BACK ==>
      Carried(cfg, Step(cfg, sys, Access(mf, time)).value.queued[|sys.queued|..], cfg.BlockAddr(mf.addr), k)
  {
    hide CacheAccess, Step, Carried, Config.BlockAddr, ProbeFor, IsFull;
    AcceptedIsWritable(cfg, sys, mf, time);
    StepIs(cfg, sys, Access(mf, time));
    if cfg.writePolicy != WRITE_BACK {
      WriteThroughCarriesExactlyWhen(cfg, sys.s, mf, time, k);
      CarriedStays(cfg, sys, Access(mf, time), |sys.queued|, cfg.BlockAddr(mf.addr), k);
    }
  }

  lemma CoveredIsValid(cfg: Config)
    requires Covered(cfg)
    ensures cfg.Valid()
  {
  }

  lemma StartIsCovered(cfg: Config)
    requires Covered(cfg)
    ensures CacheInv(cfg, Start(cfg).s)
  {
    hide CacheInv;
    InitialCacheInv(cfg);
  }

  lemma QueuedGrows(cfg: Config, sys: CacheSystem, e: CacheEvent)
    requires Step(cfg, sys, e).Some?
    ensures |sys.queued| <= |Step(cfg, sys, e).value.queued|
  {
    hide CacheAccess, CacheNext, CacheFill;
  }

  // ---- draining ----

  ghost predicate QueuesEmpty(s: CacheState) {
    && s.missQueue == [] && s.extra == map[] && s.hitQueue == [] && s.readyQueue == []
    && s.pending == map[] && s.mshr == map[] && s.ready == []
  }

  function Ticks(q: seq<HitEntry>): nat {
    if q == [] then 0 else q[0].remaining + Ticks(q[1..])
  }

  ghost function Work(s: CacheState): nat {
    |s.missQueue| + Ticks(s.hitQueue) + |s.extra| + |s.pending|
  }

  // an event of a client that only collects and a lower level that never refuses
  ghost predicate Draining(e: CacheEvent) { e == Cycle(false) || e.Fill? || e == Next }

  lemma {:induction false} TickDoesWork(q: seq<HitEntry>)
    requires HitsTicking(q)
    ensures Ticks(StillWaiting(q)) + |q| == Ticks(q)
    decreases |q|
  {
    if q != [] {
      TickDoesWork(q[1..]);
      var kept := if q[0].remaining > 1 then [HitEntry(q[0].mf, q[0].remaining - 1)] else [];
      if kept == [] {
        assert StillWaiting(q) == StillWaiting(q[1..]);
      } else {
        assert StillWaiting(q)[1..] == StillWaiting(q[1..]);
      }
    }
  }

  lemma CycleDoesWork(cfg: Config, sys: CacheSystem)
    requires SystemInv(cfg, sys) && (sys.s.missQueue != [] || sys.s.hitQueue != [])
    ensures Step(cfg, sys, Cycle(false)).Some? && Work(Step(cfg, sys, Cycle(false)).value.s) < Work(sys.s)
  {
    hide SystemInv, Ticks, StillWaiting, Expired, CoreInv, Sized;
    CycleStep(cfg, sys, false);
    InvIsTicking(cfg, sys);
    TickDoesWork(sys.s.hitQueue);
  }

  lemma InvIsTicking(cfg: Config, sys: CacheSystem)
    requires SystemInv(cfg, sys)
    ensures HitsTicking(sys.s.hitQueue)
  {
  }

  lemma LessWithout<V>(m: map<MemFetch, V>, mf: MemFetch)
    requires mf in m
    ensures |m - {mf}| < |m|
  {
    assert (m - {mf}).Keys == m.Keys - {mf};
    assert |(m - {mf}).Keys| == |m.Keys| - 1;
  }

  lemma FillDoesWork(cfg: Config, sys: CacheSystem, mf: MemFetch)
    requires SystemInv(cfg, sys) && mf in sys.atMemory
    ensures Step(cfg, sys, Fill(mf)).Some? && Work(Step(cfg, sys, Fill(mf)).value.s) < Work(sys.s)
  {
    hide CoreInv;
    FillStep(cfg, sys, mf);
    LessWithout(sys.s.extra, mf);
  }

  lemma NextDoesWork(cfg: Config, sys: CacheSystem)
    requires SystemInv(cfg, sys) && AccessReady(sys.s)
    ensures Step(cfg, sys, Next).Some? && Work(Step(cfg, sys, Next).value.s) < Work(sys.s)
  {
    hide CoreInv, CacheNext;
    NextStep(cfg, sys);
    NextKeepsCore(cfg, sys.s);
    NextLeavesRest(sys.s);
    LessWithout(sys.s.pending, CacheNext(sys.s).value.mf);
    NextKeepsHits(sys.s);
  }

  lemma NextKeepsHits(s: CacheState)
    requires CacheNext(s).Some?
    ensures CacheNext(s).value.s.hitQueue == s.hitQueue
  {
  }

  // with nothing queued, ready or outstanding there is nothing at all
  lemma NothingLeft(cfg: Config, s: CacheState)
    requires CoreInv(cfg, s) && s.missQueue == [] && s.hitQueue == [] && !AccessReady(s) && s.extra == map[]
    ensures QueuesEmpty(s)
  {
    hide AllShaped, PinsExact, PinsNamed, Config.MshrAddr, MshrWithinCapacity;
    assert forall a :: a !in s.mshr;
    assert s.mshr == map[];
    assert Waiting(s.hitQueue) == [];
    forall mf
      ensures mf !in s.pending
    {
      assert Places(cfg, s, mf) == 0;
    }
  }

  lemma OutstandingIsAtMemory(sys: CacheSystem)
    requires FetchesTracked(Reads(sys.s.missQueue), sys.atMemory, sys.s.extra) && sys.s.missQueue == []
             && sys.s.extra != map[]
    ensures exists mf :: mf in sys.atMemory
  {
    var mf :| mf in sys.s.extra;
    assert mf in sys.atMemory;
  }

  /** As long as something is pending, some step of a collecting client or of a
      willing lower level is possible and leaves less to do. */
  lemma SomeStepDrains(cfg: Config, sys: CacheSystem) returns (e: CacheEvent)
    requires SystemInv(cfg, sys) && cfg.lineSize > 0 && !QueuesEmpty(sys.s)
    ensures Draining(e) && Legal(cfg, sys, e)
    ensures Step(cfg, sys, e).Some? && Work(Step(cfg, sys, e).value.s) < Work(sys.s)
  {
    hide CoreInv, Step, Work, EntriesInOrder;
    if sys.s.missQueue != [] || sys.s.hitQueue != [] {
      e := Cycle(false);
      CycleDoesWork(cfg, sys);
    } else if AccessReady(sys.s) {
      e := Next;
      NextDoesWork(cfg, sys);
    } else {
      if sys.s.extra == map[] {
        NothingLeft(cfg, sys.s);
      }
      OutstandingIsAtMemory(sys);
      var mf :| mf in sys.atMemory;
      e := Fill(mf);
      FillDoesWork(cfg, sys, mf);
    }
  }

  /** From every reachable state, whatever the policy, such steps, at most as many as
      there is work, empty all queues; then every response was delivered and no line is
      pinned, and under the covered policies no sector waits for data. */
  lemma {:induction false} DrainsCompletely(cfg: Config, sys: CacheSystem) returns (events: seq<CacheEvent>)
    requires SystemInv(cfg, sys) && cfg.lineSize > 0
    ensures LegalRun(cfg, sys, events) && |events| <= Work(sys.s)
    ensures forall e :: e in events ==> Draining(e)
    ensures Run(cfg, sys, events).Some?
    ensures var end := Run(cfg, sys, events).value;
            && QueuesEmpty(end.s) && multiset(end.delivered) == multiset(end.owed) && end.owed == sys.owed
            && (forall i :: 0 <= i < |end.s.tags.lines| ==> !end.s.tags.lines[i].IsPinned())
            && (CacheInv(cfg, sys.s) ==>
                  forall i :: 0 <= i < |end.s.tags.lines| ==> !end.s.tags.lines[i].IsReservedLine())
    decreases Work(sys.s)
  {
    hide SystemInv, CacheInv, Step, Legal, Draining, QueuesEmpty, Work, Block.IsPinned, Block.IsReservedLine,
         Impossible;
    if QueuesEmpty(sys.s) {
      events := [];
      EmptyIsIdle(cfg, sys);
    } else {
      var e := SomeStepDrains(cfg, sys);
      StepKeepsInv(cfg, sys, e);
      if CacheInv(cfg, sys.s) {
        StepKeepsCovered(cfg, sys, e);
      }
      DrainingTakesNothingOn(cfg, sys, e);
      var rest := DrainsCompletely(cfg, Step(cfg, sys, e).value);
      events := [e] + rest;
      assert events[1..] == rest;
    }
  }

  lemma DrainingTakesNothingOn(cfg: Config, sys: CacheSystem, e: CacheEvent)
    requires Draining(e) && Step(cfg, sys, e).Some?
    ensures Step(cfg, sys, e).value.owed == sys.owed
  {
  }

  lemma EmptyIsIdle(cfg: Config, sys: CacheSystem)
    requires SystemInv(cfg, sys) && QueuesEmpty(sys.s)
    ensures multiset(sys.delivered) == multiset(sys.owed)
    ensures var lines := sys.s.tags.lines;
      && (forall i :: 0 <= i < |lines| ==> !lines[i].IsPinned())
      && (CacheInv(cfg, sys.s) ==> forall i :: 0 <= i < |lines| ==> !lines[i].IsReservedLine())
  {
    hide CacheInv, Accounted, MshrsOk, PinsNamed, AllShaped, EntriesInOrder, WithinCapacity;
    var s := sys.s;
    forall mf
      ensures multiset(sys.delivered)[mf] == multiset(sys.owed)[mf]
    {
    }
    forall i | 0 <= i < |s.tags.lines|
      ensures !s.tags.lines[i].IsPinned()
    {
      assert PinnedAt(s.pending, i) == {};
    }
    if CacheInv(cfg, s) {
      NoneReserved(cfg, s);
    }
  }

  lemma NoneReserved(cfg: Config, s: CacheState)
    requires CacheInv(cfg, s) && s.mshr == map[]
    ensures forall i :: 0 <= i < |s.tags.lines| ==> !s.tags.lines[i].IsReservedLine()
  {
    hide Accounted, MshrsOk, PinsHold, PinsExact, TagsOk, WithinCapacity;
    forall i | 0 <= i < |s.tags.lines|
      ensures !s.tags.lines[i].IsReservedLine()
    {
      assert ReservedIsOwned(s.tags.lines, s.mshr, s.ready, i, 0)
             && ReservedIsOwned(s.tags.lines, s.mshr, s.ready, i, 1);
      assert ReservedIsOwned(s.tags.lines, s.mshr, s.ready, i, 2)
             && ReservedIsOwned(s.tags.lines, s.mshr, s.ready, i, 3);
    }
  }
}
