/** Whole runs of a cache next to a lower level that may be full at any time and
    answers, in any order, only the fetches it was sent. */
module CacheRuns {
  import opened CacheTypes
  import opened Options
  import opened TagArrays
  import opened CacheModel
  import opened CacheAdmission
  import opened CacheInvariant
  import opened CacheSteps
  import opened CacheOperations
  import opened CacheReturns
  import opened CacheCore
  import opened CacheDurability
  import opened CacheTraffic

  // owed: responses the cache took on, in order; queued: everything it ever
  // queued for the lower level; sent: what has left
  datatype CacheSystem = CacheSystem(s: CacheState, atMemory: set<MemFetch>, owed: seq<MemFetch>,
                                     delivered: seq<MemFetch>, queued: seq<Packet>, sent: seq<Packet>)

  datatype CacheEvent = Access(mf: MemFetch, time: nat) | Cycle(memFull: bool) | Fill(filled: MemFetch) | Next

  // what clients and the lower level may do
  ghost predicate Legal(cfg: Config, sys: CacheSystem, e: CacheEvent)
    requires cfg.lineSize > 0
  {
    match e
    case Access(mf, time) => Presentable(cfg, sys.s, mf, time)
    case Cycle(_) => true
    case Fill(mf) => mf in sys.atMemory
    case Next => AccessReady(sys.s)
  }

  // the packet cycle() hands to the lower level, if any
  function Leaving(s: CacheState, memFull: bool): Option<Packet> {
    if s.missQueue == [] || memFull then None else Some(s.missQueue[0])
  }

  // one event; None if an assertion of the original would fail
  ghost function Step(cfg: Config, sys: CacheSystem, e: CacheEvent): Option<CacheSystem> {
    var s := sys.s;
    if !Sized(cfg, s.tags) then None
    else match e
      case Access(mf, time) =>
        var o :- CacheAccess(cfg, s, mf, time);
        Some(sys.(s := o.s, owed := sys.owed + AsSeq(Owed(cfg, s, mf, o.status)), queued := sys.queued + Added(s, o.s)))
      case Cycle(memFull) =>
        var s' :- CacheCycle(s, memFull);
        var p := Leaving(s, memFull);
        Some(sys.(s := s', sent := sys.sent + AsSeq(p),
                  atMemory := if p.Some? && p.value.ReadPacket? then sys.atMemory + {p.value.fetch} else sys.atMemory))
      case Fill(mf) =>
        var s' :- CacheFill(cfg, s, mf);
        Some(sys.(s := s', atMemory := sys.atMemory - {mf}))
      case Next =>
        var d :- CacheNext(s);
        Some(sys.(s := d.s, delivered := sys.delivered + [d.mf]))
  }

  // ---- the invariant of the whole system ----

  // each outstanding fetch is in the miss queue or at the lower level, once
  ghost predicate FetchesTracked(fetches: seq<MemFetch>, atMemory: set<MemFetch>, extra: map<MemFetch, Extra>) {
    && Distinct(fetches)
    && (forall mf :: mf in extra <==> (mf in fetches || mf in atMemory))
    && (forall mf :: mf in fetches ==> mf !in atMemory)
  }

  // every response taken on was delivered exactly once or is pending
  ghost predicate DeliveredOnce(sys: CacheSystem) {
    forall mf :: multiset(sys.owed)[mf] == multiset(sys.delivered)[mf] + (if mf in sys.s.pending then 1 else 0)
  }

  // position of the latest occurrence, counted from 1; 0 if there is none
  function LatestAt(q: seq<MemFetch>, mf: MemFetch): nat {
    if q == [] then 0 else if q[|q| - 1] == mf then |q| else LatestAt(q[..|q| - 1], mf)
  }

  // the requests of an MSHR entry stand in the order in which they were accepted
  ghost predicate InArrivalOrder(owed: seq<MemFetch>, q: seq<MemFetch>) {
    forall i, j :: 0 <= i < j < |q| ==> LatestAt(owed, q[i]) < LatestAt(owed, q[j])
  }

  ghost predicate EntriesInOrder(owed: seq<MemFetch>, mshr: MshrTable) {
    forall a :: a in mshr ==> InArrivalOrder(owed, mshr[a])
  }

  ghost predicate SystemInv(cfg: Config, sys: CacheSystem) {
    && CoreInv(cfg, sys.s)
    && FetchesTracked(Reads(sys.s.missQueue), sys.atMemory, sys.s.extra)
    && DeliveredOnce(sys) && EntriesInOrder(sys.owed, sys.s.mshr)
    && sys.queued == sys.sent + sys.s.missQueue
  }

  ghost function Start(cfg: Config): CacheSystem { CacheSystem(InitialCache(cfg), {}, [], [], [], []) }

  lemma StartInv(cfg: Config)
    requires cfg.Valid()
    ensures SystemInv(cfg, Start(cfg))
  {
    hide CoreInv;
    InitialCacheCore(cfg);
  }

  // ---- steps ----

  lemma LatestAppend(q: seq<MemFetch>, r: MemFetch, mf: MemFetch)
    ensures LatestAt(q + [r], mf) == if mf == r then |q| + 1 else LatestAt(q, mf)
  {
    assert (q + [r])[..|q|] == q;
  }

  lemma {:induction false} LatestIsWithin(q: seq<MemFetch>, mf: MemFetch)
    ensures LatestAt(q, mf) <= |q|
    decreases |q|
  {
    if q != [] {
      LatestIsWithin(q[..|q| - 1], mf);
    }
  }

  lemma AppendKeepsOrder(owed: seq<MemFetch>, q: seq<MemFetch>, mf: MemFetch)
    requires InArrivalOrder(owed, q) && mf !in q
    ensures InArrivalOrder(owed + [mf], q) && InArrivalOrder(owed + [mf], q + [mf])
  {
    var q' := q + [mf];
    forall i, j | 0 <= i < j < |q'|
      ensures LatestAt(owed + [mf], q'[i]) < LatestAt(owed + [mf], q'[j])
    {
      LatestAppend(owed, mf, q'[i]);
      LatestAppend(owed, mf, q'[j]);
      LatestIsWithin(owed, q'[i]);
    }
    forall i, j | 0 <= i < j < |q|
      ensures LatestAt(owed + [mf], q[i]) < LatestAt(owed + [mf], q[j])
    {
      assert q'[i] == q[i] && q'[j] == q[j];
    }
  }

  // no entry lists a request that is not pending
  lemma NotPendingNotListed(cfg: Config, s: CacheState, mf: MemFetch, a: nat)
    requires CoreInv(cfg, s) && mf !in s.pending && a in s.mshr
    ensures mf !in s.mshr[a]
  {
    hide AllShaped, PinsExact, PinsNamed, Accounted, Config.MshrAddr;
    forall k | 0 <= k < |s.mshr[a]|
      ensures s.mshr[a][k] != mf
    {
      assert IsMember(cfg, s.mshr[a][k], a, s.pending);
    }
  }

  lemma AccessKeepsOrder(cfg: Config, s: CacheState, s': CacheState, owed: seq<MemFetch>, o: Option<MemFetch>)
    requires CoreInv(cfg, s) && EntriesInOrder(owed, s.mshr) && (o.Some? ==> o.value !in s.pending)
    requires s'.mshr == s.mshr || (o.Some? && s'.mshr == MshrAdd(s.mshr, cfg.MshrAddr(o.value.addr), o.value))
    ensures EntriesInOrder(owed + AsSeq(o), s'.mshr)
  {
    hide CoreInv, Config.MshrAddr, InArrivalOrder;
    assert owed + [] == owed;
    if o.Some? {
      forall a | a in s'.mshr
        ensures InArrivalOrder(owed + [o.value], s'.mshr[a])
      {
        if a in s.mshr {
          NotPendingNotListed(cfg, s, o.value, a);
          AppendKeepsOrder(owed, s.mshr[a], o.value);
        } else {
          assert s'.mshr[a] == [o.value];
          SingleInOrder(owed + [o.value], o.value);
        }
      }
    }
  }

  lemma SingleInOrder(owed: seq<MemFetch>, mf: MemFetch)
    ensures InArrivalOrder(owed, [mf])
  {
  }

  lemma OwedIsNew(cfg: Config, s: CacheState, mf: MemFetch, time: nat, status: RequestStatus)
    requires CoreInv(cfg, s) && Presentable(cfg, s, mf, time)
    ensures var o := Owed(cfg, s, mf, status); o.Some? ==> o.value !in s.pending
  {
    hide CoreInv;
    CoreIsSized(cfg, s);
    FreshIdIsNotPending(cfg, s, AllocateFetch(cfg, s, mf));
  }

  /** An access is impossible exactly when access() fails, and keeps the invariant otherwise. */
  lemma AccessStep(cfg: Config, sys: CacheSystem, mf: MemFetch, time: nat)
    requires SystemInv(cfg, sys) && Presentable(cfg, sys.s, mf, time)
    ensures Step(cfg, sys, Access(mf, time)).None? <==> Fails(cfg, sys.s, mf)
    ensures Step(cfg, sys, Access(mf, time)).Some? ==> SystemInv(cfg, Step(cfg, sys, Access(mf, time)).value)
  {
    hide CoreInv, CacheAccess, Reads, Owed, EntriesInOrder, Sized, WithinCapacity, Fails;
    var s := sys.s;
    CoreIsSized(cfg, s);
    AccessFailsExactlyWhen(cfg, s, mf, time);
    if CacheAccess(cfg, s, mf, time).Some? {
      var o := CacheAccess(cfg, s, mf, time).value;
      var fetch := AccessTracks(cfg, s, mf, time);
      AccessGrowsQueue(cfg, s, mf, time);
      var owed := Owed(cfg, s, mf, o.status);
      OwedIsNew(cfg, s, mf, time, o.status);
      AccessKeepsOrder(cfg, s, o.s, sys.owed, owed);
      NewFetchTracked(cfg, s, o.s, owed, fetch, sys.atMemory);
      var sys' := Step(cfg, sys, Access(mf, time)).value;
      assert DeliveredOnce(sys');
    }
  }

  lemma NotPendingNotRecorded(cfg: Config, s: CacheState, mf: MemFetch)
    requires CoreInv(cfg, s) && mf !in s.pending
    ensures mf !in s.extra
  {
    hide AllShaped, PinsExact, PinsNamed, Accounted, Config.MshrAddr;
    assert mf in s.extra ==> OwnsEntry(cfg, s.mshr, s.ready, mf, s.extra[mf], s.pending);
  }

  lemma NewFetchTracked(cfg: Config, s: CacheState, s': CacheState, owed: Option<MemFetch>, fetch: Option<MemFetch>,
                        atMemory: set<MemFetch>)
    requires CoreInv(cfg, s) && Tracks(cfg, s, s', owed, fetch)
             && FetchesTracked(Reads(s.missQueue), atMemory, s.extra)
    ensures FetchesTracked(Reads(s'.missQueue), atMemory, s'.extra)
  {
    hide CoreInv, Reads;
    if fetch.Some? {
      NotPendingNotRecorded(cfg, s, fetch.value);
      TrackOneMore(Reads(s.missQueue), atMemory, s.extra, s'.extra, fetch.value);
    } else {
      assert Reads(s'.missQueue) == Reads(s.missQueue);
      assert forall mf :: mf in s'.extra <==> mf in s.extra.Keys;
    }
  }

  lemma TrackOneMore(fetches: seq<MemFetch>, atMemory: set<MemFetch>, extra: map<MemFetch, Extra>,
                     extra': map<MemFetch, Extra>, f: MemFetch)
    requires FetchesTracked(fetches, atMemory, extra) && f !in extra && extra'.Keys == extra.Keys + {f}
    ensures FetchesTracked(fetches + [f], atMemory, extra')
  {
    assert forall mf :: mf in extra' <==> mf in extra'.Keys;
    assert forall mf :: mf in fetches + [f] <==> mf in fetches || mf == f;
    assert Distinct(fetches + [f]);
  }

  lemma CycleStep(cfg: Config, sys: CacheSystem, memFull: bool)
    requires SystemInv(cfg, sys)
    ensures Step(cfg, sys, Cycle(memFull)).Some? && SystemInv(cfg, Step(cfg, sys, Cycle(memFull)).value)
  {
    hide CoreInv, EntriesInOrder, Sized, StillWaiting, Expired, Reads;
    var s := sys.s;
    CoreIsSized(cfg, s);
    CycleKeepsCore(cfg, s, memFull);
    var p := Leaving(s, memFull);
    if p.Some? {
      assert s.missQueue == [p.value] + s.missQueue[1..];
      ReadsConcat([p.value], s.missQueue[1..]);
      ReadsOne(p.value);
      FirstLeaves(Reads(s.missQueue), Reads(s.missQueue[1..]), sys.atMemory, s.extra, p.value);
    }
  }

  lemma FirstLeaves(fetches: seq<MemFetch>, rest: seq<MemFetch>, atMemory: set<MemFetch>, extra: map<MemFetch, Extra>,
                    p: Packet)
    requires FetchesTracked(fetches, atMemory, extra)
    requires fetches == (if p.ReadPacket? then [p.fetch] else []) + rest
    ensures FetchesTracked(rest, if p.ReadPacket? then atMemory + {p.fetch} else atMemory, extra)
  {
    if p.ReadPacket? {
      assert fetches[0] == p.fetch && fetches[1..] == rest;
      assert forall i :: 0 <= i < |rest| ==> rest[i] == fetches[i + 1];
      assert forall mf :: mf in fetches <==> mf == p.fetch || mf in rest;
    } else {
      assert fetches == rest;
    }
  }

  lemma FillStep(cfg: Config, sys: CacheSystem, mf: MemFetch)
    requires SystemInv(cfg, sys) && mf in sys.atMemory
    ensures Step(cfg, sys, Fill(mf)).Some? && SystemInv(cfg, Step(cfg, sys, Fill(mf)).value)
  {
    hide CoreInv, EntriesInOrder, Sized, Reads;
    CoreIsSized(cfg, sys.s);
    FillKeepsCore(cfg, sys.s, mf);
  }

  lemma TailInOrder(owed: seq<MemFetch>, q: seq<MemFetch>)
    requires InArrivalOrder(owed, q) && q != []
    ensures InArrivalOrder(owed, q[1..])
  {
    forall i, j | 0 <= i < j < |q[1..]|
      ensures LatestAt(owed, q[1..][i]) < LatestAt(owed, q[1..][j])
    {
      assert q[1..][i] == q[i + 1] && q[1..][j] == q[j + 1];
    }
  }

  lemma NextKeepsOrder(owed: seq<MemFetch>, s: CacheState)
    requires CacheNext(s).Some? && EntriesInOrder(owed, s.mshr)
    ensures EntriesInOrder(owed, CacheNext(s).value.s.mshr)
  {
    hide InArrivalOrder;
    var s' := CacheNext(s).value.s;
    forall a | a in s'.mshr
      ensures InArrivalOrder(owed, s'.mshr[a])
    {
      if s'.mshr[a] != s.mshr[a] {
        TailInOrder(owed, s.mshr[a]);
      }
    }
  }

  lemma NextLeavesRest(s: CacheState)
    requires CacheNext(s).Some?
    ensures var s' := CacheNext(s).value.s; s'.missQueue == s.missQueue && s'.extra == s.extra
  {
  }

  lemma NextStep(cfg: Config, sys: CacheSystem)
    requires SystemInv(cfg, sys) && AccessReady(sys.s)
    ensures Step(cfg, sys, Next).Some? && SystemInv(cfg, Step(cfg, sys, Next).value)
  {
    hide CoreInv, EntriesInOrder, Sized, Reads, CacheNext;
    CoreIsSized(cfg, sys.s);
    NextKeepsCore(cfg, sys.s);
    NextKeepsOrder(sys.owed, sys.s);
    NextLeavesRest(sys.s);
    assert DeliveredOnce(Step(cfg, sys, Next).value);
  }

  /** Every legal event keeps the invariant, and only an access that fails is not
      possible. */
  lemma StepKeepsInv(cfg: Config, sys: CacheSystem, e: CacheEvent)
    requires SystemInv(cfg, sys) && cfg.lineSize > 0 && Legal(cfg, sys, e)
    ensures Step(cfg, sys, e).None? <==> Impossible(cfg, sys, e)
    ensures Impossible(cfg, sys, e) ==> LazyLines(cfg)
    ensures Step(cfg, sys, e).Some? ==> SystemInv(cfg, Step(cfg, sys, e).value)
  {
    hide SystemInv, Step, Fails;
    match e {
      case Access(mf, time) =>
        AccessStep(cfg, sys, mf, time);
        FailsOnlyOn(cfg, sys, mf, time);
      case Cycle(memFull) => CycleStep(cfg, sys, memFull);
      case Fill(mf) => FillStep(cfg, sys, mf);
      case Next => NextStep(cfg, sys);
    }
  }

  ghost predicate Impossible(cfg: Config, sys: CacheSystem, e: CacheEvent) {
    Sized(cfg, sys.s.tags) && e.Access? && Fails(cfg, sys.s, e.mf)
  }

  lemma FailsOnlyOn(cfg: Config, sys: CacheSystem, mf: MemFetch, time: nat)
    requires SystemInv(cfg, sys) && Presentable(cfg, sys.s, mf, time)
    ensures Sized(cfg, sys.s.tags) && (Fails(cfg, sys.s, mf) ==> LazyLines(cfg))
  {
    hide CoreInv, CacheAccess, Fails;
    CoreIsSized(cfg, sys.s);
    AccessFailsExactlyWhen(cfg, sys.s, mf, time);
  }

  /** Under the covered policies lines, MSHR entries and the dirty counter also stay
      consistent. */
  lemma StepKeepsCovered(cfg: Config, sys: CacheSystem, e: CacheEvent)
    requires SystemInv(cfg, sys) && CacheInv(cfg, sys.s) && cfg.lineSize > 0 && Legal(cfg, sys, e)
    ensures Step(cfg, sys, e).Some? && CacheInv(cfg, Step(cfg, sys, e).value.s)
  {
    hide CacheInv, CoreInv, CacheAccess, CacheCycle, CacheNext, CacheFill, Reads, EntriesInOrder, Sized, Owed;
    InvIsSized(cfg, sys.s);
    match e {
      case Access(mf, time) => AccessKeepsInv(cfg, sys.s, mf, time);
      case Cycle(memFull) => CycleKeepsInv(cfg, sys.s, memFull);
      case Fill(mf) => FillKeepsInv(cfg, sys.s, mf);
      case Next => NextKeepsInv(cfg, sys.s);
    }
  }

  // ---- runs ----

  ghost function Run(cfg: Config, sys: CacheSystem, events: seq<CacheEvent>): Option<CacheSystem>
    decreases |events|
  {
    if events == [] then Some(sys)
    else
      var next :- Step(cfg, sys, events[0]);
      Run(cfg, next, events[1..])
  }

  ghost predicate LegalRun(cfg: Config, sys: CacheSystem, events: seq<CacheEvent>)
    requires cfg.lineSize > 0
    decreases |events|
  {
    events == [] ||
    (Legal(cfg, sys, events[0]) &&
     match Step(cfg, sys, events[0])
     case None => true
     case Some(next) => LegalRun(cfg, next, events[1..]))
  }

  lemma {:induction false} RunKeepsInv(cfg: Config, sys: CacheSystem, events: seq<CacheEvent>)
    requires cfg.lineSize > 0 && SystemInv(cfg, sys) && LegalRun(cfg, sys, events)
    ensures Run(cfg, sys, events).Some? || LazyLines(cfg)
    ensures Run(cfg, sys, events).Some? ==> SystemInv(cfg, Run(cfg, sys, events).value)
    decreases |events|
  {
    hide SystemInv, Step, Legal, Impossible;
    if events != [] {
      StepKeepsInv(cfg, sys, events[0]);
      if Step(cfg, sys, events[0]).Some? {
        RunKeepsInv(cfg, Step(cfg, sys, events[0]).value, events[1..]);
      }
    }
  }

  lemma {:induction false} RunKeepsCovered(cfg: Config, sys: CacheSystem, events: seq<CacheEvent>)
    requires cfg.lineSize > 0 && SystemInv(cfg, sys) && CacheInv(cfg, sys.s) && LegalRun(cfg, sys, events)
    ensures Run(cfg, sys, events).Some? && CacheInv(cfg, Run(cfg, sys, events).value.s)
    ensures SystemInv(cfg, Run(cfg, sys, events).value)
    decreases |events|
  {
    hide SystemInv, CacheInv, Step, Legal, Impossible;
    if events != [] {
      StepKeepsInv(cfg, sys, events[0]);
      StepKeepsCovered(cfg, sys, events[0]);
      RunKeepsCovered(cfg, Step(cfg, sys, events[0]).value, events[1..]);
    }
  }

  // the first n events are possible, and the next one is not
  ghost predicate StopsAt(cfg: Config, sys: CacheSystem, events: seq<CacheEvent>, n: nat) {
    && n < |events| && Run(cfg, sys, events[..n]).Some?
    && Impossible(cfg, Run(cfg, sys, events[..n]).value, events[n])
  }

  lemma StopsLater(cfg: Config, sys: CacheSystem, events: seq<CacheEvent>, n: nat)
    requires events != [] && Step(cfg, sys, events[0]).Some? && n < |events| - 1
    ensures StopsAt(cfg, sys, events, n + 1) <==> StopsAt(cfg, Step(cfg, sys, events[0]).value, events[1..], n)
  {
    hide Step, Impossible;
    assert events[..n + 1][0] == events[0] && events[..n + 1][1..] == events[1..][..n];
    assert events[1..][n] == events[n + 1];
  }

  /** For every policy, a legal run fails an assertion exactly when it comes to a read
      that finds a whole line modified and unreadable and would refetch it. */
  lemma {:induction false} RunFailsExactlyWhen(cfg: Config, sys: CacheSystem, events: seq<CacheEvent>)
    requires cfg.lineSize > 0 && SystemInv(cfg, sys) && LegalRun(cfg, sys, events)
    ensures Run(cfg, sys, events).None? <==> exists n: nat :: StopsAt(cfg, sys, events, n)
    ensures Run(cfg, sys, events).None? ==> LazyLines(cfg)
    decreases |events|
  {
    hide SystemInv, Step, Legal, Impossible;
    if events != [] {
      StepKeepsInv(cfg, sys, events[0]);
      assert Run(cfg, sys, events[..0]) == Some(sys);
      if Step(cfg, sys, events[0]).None? {
        assert StopsAt(cfg, sys, events, 0);
      } else {
        var next := Step(cfg, sys, events[0]).value;
        RunFailsExactlyWhen(cfg, next, events[1..]);
        if n: nat :| StopsAt(cfg, next, events[1..], n) {
          StopsLater(cfg, sys, events, n);
        }
        if n: nat :| StopsAt(cfg, sys, events, n) {
          if n > 0 {
            StopsLater(cfg, sys, events, n - 1);
          }
        }
      }
    }
  }

  lemma {:induction false} RunConcat(cfg: Config, sys: CacheSystem, first: seq<CacheEvent>, second: seq<CacheEvent>)
    requires cfg.lineSize > 0 && LegalRun(cfg, sys, first + second)
    ensures LegalRun(cfg, sys, first)
    ensures Run(cfg, sys, first).Some? ==> LegalRun(cfg, Run(cfg, sys, first).value, second)
    ensures Run(cfg, sys, first).Some? ==> Run(cfg, sys, first + second) == Run(cfg, Run(cfg, sys, first).value, second)
    decreases |first|
  {
    hide Step, Legal;
    if first == [] {
      assert first + second == second;
    } else {
      assert (first + second)[1..] == first[1..] + second;
      if Step(cfg, sys, first[0]).Some? {
        RunConcat(cfg, Step(cfg, sys, first[0]).value, first[1..], second);
      }
    }
  }

  /** In every legal run, under every write policy, no assertion fails, but for a read of
      a partly written whole line under LAZY_FETCH_ON_READ.  At the end each response
      taken on was delivered exactly once or is still pending, its line is pinned and
      bears its address, every outstanding fetch is queued or at the lower level, and
      packets leave in the order in which they were queued. */
  lemma EveryRunIsSound(cfg: Config, events: seq<CacheEvent>)
    requires cfg.Valid() && LegalRun(cfg, Start(cfg), events)
    ensures !LazyLines(cfg) ==> Run(cfg, Start(cfg), events).Some?
    ensures Run(cfg, Start(cfg), events).Some? ==>
      var end := Run(cfg, Start(cfg), events).value;
      && CoreInv(cfg, end.s) && (Covered(cfg) ==> CacheInv(cfg, end.s))
      && multiset(end.owed) == multiset(end.delivered) + multiset(end.s.pending.Keys)
      && (forall mf :: mf in end.s.extra ==> ReadQueued(end.s.missQueue, mf) || mf in end.atMemory)
      && end.queued == end.sent + end.s.missQueue
  {
    hide Run, LegalRun, CoreInv, CacheInv, EntriesInOrder;
    StartInv(cfg);
    RunKeepsInv(cfg, Start(cfg), events);
    if Covered(cfg) {
      InitialCacheInv(cfg);
      RunKeepsCovered(cfg, Start(cfg), events);
    }
    if Run(cfg, Start(cfg), events).Some? {
      var end := Run(cfg, Start(cfg), events).value;
      forall mf
        ensures multiset(end.owed)[mf] == (multiset(end.delivered) + multiset(end.s.pending.Keys))[mf]
      {
      }
      forall mf | mf in end.s.extra && mf !in end.atMemory
        ensures ReadQueued(end.s.missQueue, mf)
      {
        ReadsAreQueued(end.s.missQueue, mf);
      }
    }
  }

  ghost predicate ReadQueued(q: seq<Packet>, mf: MemFetch) {
    exists p :: p in q && p.ReadPacket? && p.fetch == mf
  }

  lemma {:induction false} ReadsAreQueued(q: seq<Packet>, mf: MemFetch)
    requires mf in Reads(q)
    ensures ReadQueued(q, mf)
    decreases |q|
  {
    if q[0].ReadPacket? && q[0].fetch == mf {
      assert q[0] in q;
    } else {
      ReadsAreQueued(q[1..], mf);
      var p :| p in q[1..] && p.ReadPacket? && p.fetch == mf;
      assert p in q;
    }
  }

  /** Requests merged in one MSHR entry come back in the order of their
      acceptance: whatever the entry still lists was accepted later. */
  lemma MergedInArrivalOrder(cfg: Config, sys: CacheSystem)
    requires SystemInv(cfg, sys) && sys.s.readyQueue == [] && sys.s.ready != []
    ensures CacheNext(sys.s).Some?
    ensures var (d, a) := (CacheNext(sys.s).value, sys.s.ready[0]);
            && a in sys.s.mshr && LatestAt(sys.owed, d.mf) > 0
            && forall k :: 1 <= k < |sys.s.mshr[a]| ==> LatestAt(sys.owed, d.mf) < LatestAt(sys.owed, sys.s.mshr[a][k])
  {
    hide CoreInv, CacheNext;
    MshrsKeepCore(cfg, sys.s);
    var d := CacheNext(sys.s).value;
    assert InArrivalOrder(sys.owed, sys.s.mshr[sys.s.ready[0]]);
    OwedHasPosition(sys.owed, d.mf);
  }

  lemma {:induction false} OwedHasPosition(q: seq<MemFetch>, mf: MemFetch)
    ensures multiset(q)[mf] > 0 ==> LatestAt(q, mf) > 0
    decreases |q|
  {
    if q != [] {
      assert q == q[..|q| - 1] + [q[|q| - 1]];
      OwedHasPosition(q[..|q| - 1], mf);
    }
  }
}
