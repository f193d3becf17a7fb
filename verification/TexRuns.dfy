/** Whole runs of the texture cache next to a lower level that may be full at
    any time and answers, in any order, only the requests it was sent. */
module TexRuns {
  import opened CacheTypes
  import opened Options
  import opened TagArrays
  import opened CircularFifo
  import opened TexModel

  datatype TexSystem = TexSystem(s: TexState, atMemory: set<MemFetch>, accepted: seq<MemFetch>,
                                 delivered: seq<MemFetch>)

  datatype TexEvent = Access(mf: MemFetch, time: nat) | Cycle(memFull: bool) | Fill(filled: MemFetch) | Next

  // what clients and the lower level may do
  ghost predicate Legal(cfg: Config, sys: TexSystem, e: TexEvent) {
    match e
    case Access(mf, time) => mf !in sys.s.extra && time < TIME_SENTINEL && mf.dataSize <= cfg.lineSize
    case Cycle(_) => true
    case Fill(mf) => mf in sys.atMemory
    case Next => sys.s.results != []
  }

  ghost function Step(cfg: Config, cap: Capacity, sys: TexSystem, e: TexEvent): Option<TexSystem> {
    var s := sys.s;
    if !Sized(cfg, s.tags) || !s.rob.Ok() then None
    else match e
      case Access(mf, time) =>
        (match TexAccess(cfg, cap, s, mf, time)
         case None => None
         case Some(o) =>
           Some(sys.(s := o.s, accepted := if o.status == RESERVATION_FAIL then sys.accepted else sys.accepted + [mf])))
      case Cycle(memFull) =>
        (match TexRetire(cfg, cap, TexSend(s, memFull))
         case None => None
         case Some(s') =>
           Some(sys.(s := s', atMemory := if s.requests == [] || memFull then sys.atMemory
                                          else sys.atMemory + {s.requests[0]})))
      case Fill(mf) =>
        (match TexFill(cfg, s, mf)
         case None => None
         case Some(s') => Some(sys.(s := s', atMemory := sys.atMemory - {mf})))
      case Next =>
        (match TexNext(s)
         case None => None
         case Some(s') => Some(sys.(s := s', delivered := sys.delivered + [s.results[0]])))
  }

  // each fetch still waiting for data is queued or at the lower level, once
  ghost predicate FetchesTracked(requests: seq<MemFetch>, atMemory: set<MemFetch>, extra: map<MemFetch, nat>) {
    && Distinct(requests)
    && (forall mf :: mf in extra <==> (mf in requests || mf in atMemory))
    && (forall mf :: mf in requests ==> mf !in atMemory)
  }

  ghost predicate SystemInv(cfg: Config, cap: Capacity, sys: TexSystem) {
    && TexInv(cfg, cap, sys.s)
    && FetchesTracked(sys.s.requests, sys.atMemory, sys.s.extra)
    && sys.accepted == sys.delivered + (sys.s.results + Requests(sys.s.fragments))
  }

  lemma AccessStep(cfg: Config, cap: Capacity, sys: TexSystem, mf: MemFetch, time: nat)
    requires SystemInv(cfg, cap, sys) && Legal(cfg, sys, Access(mf, time))
    ensures Step(cfg, cap, sys, Access(mf, time)).Some?
    ensures SystemInv(cfg, cap, Step(cfg, cap, sys, Access(mf, time)).value)
  {
    hide AccessTags, TexInv, Requests;
    InvGivesShape(cfg, cap, sys.s);
    AccessKeepsInv(cfg, cap, sys.s, mf, time);
    var o := TexAccess(cfg, cap, sys.s, mf, time).value;
    assert sys.delivered + (o.s.results + Requests(o.s.fragments))
        == if o.status == RESERVATION_FAIL then sys.accepted else sys.accepted + [mf];
  }

  lemma CycleStep(cfg: Config, cap: Capacity, sys: TexSystem, memFull: bool)
    requires SystemInv(cfg, cap, sys)
    ensures Step(cfg, cap, sys, Cycle(memFull)).Some?
    ensures SystemInv(cfg, cap, Step(cfg, cap, sys, Cycle(memFull)).value)
  {
    hide TexRetire, TexInv, Requests;
    InvGivesShape(cfg, cap, sys.s);
    SendKeepsInv(cfg, cap, sys.s, memFull);
    var s1 := TexSend(sys.s, memFull);
    RetireKeepsInv(cfg, cap, s1);
    RetireKeepsFetches(cfg, cap, s1);
  }

  /** Every legal event is possible, fails no assertion, and keeps the invariant. */
  lemma StepKeepsInv(cfg: Config, cap: Capacity, sys: TexSystem, e: TexEvent)
    requires SystemInv(cfg, cap, sys) && Legal(cfg, sys, e)
    ensures Step(cfg, cap, sys, e).Some? && SystemInv(cfg, cap, Step(cfg, cap, sys, e).value)
  {
    match e {
      case Access(mf, time) => AccessStep(cfg, cap, sys, mf, time);
      case Cycle(memFull) => CycleStep(cfg, cap, sys, memFull);
      case Fill(mf) =>
        hide Replay, Misses, Requests;
        FillKeepsInv(cfg, cap, sys.s, mf);
      case Next =>
        hide Replay, Misses, Requests;
        var q := sys.s.results + Requests(sys.s.fragments);
        assert q == [sys.s.results[0]] + (sys.s.results[1..] + Requests(sys.s.fragments));
    }
  }

  lemma RetireKeepsFetches(cfg: Config, cap: Capacity, s: TexState)
    requires cfg.lineSize > 0 && s.rob.Ok() && TexRetire(cfg, cap, s).Some?
    ensures TexRetire(cfg, cap, s).value.requests == s.requests
    ensures TexRetire(cfg, cap, s).value.extra == s.extra
  {
  }

  ghost function Start(cfg: Config, rob: Ring<RobEntry>): TexSystem {
    TexSystem(Initial(cfg, rob), {}, [], [])
  }

  lemma StartInv(cfg: Config, cap: Capacity, rob: Ring<RobEntry>)
    requires cfg.Valid() && cfg.cacheType == NORMAL && rob.Ok() && rob.num == 0
    ensures SystemInv(cfg, cap, Start(cfg, rob))
  {
    hide TexInv;
    InitialInv(cfg, cap, rob);
  }

  ghost function Run(cfg: Config, cap: Capacity, sys: TexSystem, events: seq<TexEvent>): Option<TexSystem>
    decreases |events|
  {
    if events == [] then Some(sys)
    else match Step(cfg, cap, sys, events[0])
      case None => None
      case Some(next) => Run(cfg, cap, next, events[1..])
  }

  ghost predicate LegalRun(cfg: Config, cap: Capacity, sys: TexSystem, events: seq<TexEvent>)
    decreases |events|
  {
    events == [] ||
    (Legal(cfg, sys, events[0]) &&
     match Step(cfg, cap, sys, events[0])
     case None => true
     case Some(next) => LegalRun(cfg, cap, next, events[1..]))
  }

  lemma {:induction false} RunKeepsInv(cfg: Config, cap: Capacity, sys: TexSystem, events: seq<TexEvent>)
    requires SystemInv(cfg, cap, sys) && LegalRun(cfg, cap, sys, events)
    ensures Run(cfg, cap, sys, events).Some? && SystemInv(cfg, cap, Run(cfg, cap, sys, events).value)
    decreases |events|
  {
    hide SystemInv, Step, Legal;
    if events != [] {
      StepKeepsInv(cfg, cap, sys, events[0]);
      RunKeepsInv(cfg, cap, Step(cfg, cap, sys, events[0]).value, events[1..]);
    }
  }

  /** In every legal run no assertion of the texture cache ever fails, and the
      requests come back in exactly the order in which they were accepted. */
  lemma TextureRunsInOrder(cfg: Config, cap: Capacity, rob: Ring<RobEntry>, events: seq<TexEvent>)
    requires cfg.Valid() && cfg.cacheType == NORMAL && rob.Ok() && rob.num == 0
    requires LegalRun(cfg, cap, Start(cfg, rob), events)
    ensures Run(cfg, cap, Start(cfg, rob), events).Some?
    ensures var end := Run(cfg, cap, Start(cfg, rob), events).value;
            && TexInv(cfg, cap, end.s)
            && end.accepted == end.delivered + (end.s.results + Requests(end.s.fragments))
  {
    hide Run, LegalRun;
    StartInv(cfg, cap, rob);
    RunKeepsInv(cfg, cap, Start(cfg, rob), events);
  }

  // ---- draining ----

  ghost predicate QueuesEmpty(s: TexState) {
    s.fragments == [] && s.requests == [] && s.rob.num == 0 && s.results == [] && s.extra == map[]
  }

  ghost function Work(s: TexState): nat {
    |s.requests| + 2 * |s.fragments| + |s.results| + |s.extra|
  }

  // an event of a client that only collects and a lower level that never refuses
  ghost predicate Draining(e: TexEvent) { e == Cycle(false) || e.Fill? || e == Next }

  lemma HasMember(q: seq<MemFetch>)
    requires q != []
    ensures exists mf :: mf in q
  {
    assert q[0] in q;
  }

  lemma NothingWithoutFragments(cfg: Config, cap: Capacity, sys: TexSystem)
    requires SystemInv(cfg, cap, sys) && sys.s.fragments == []
    ensures sys.s.rob.num == 0 && sys.s.extra == map[] && sys.s.requests == []
  {
    assert Misses([]) == [];
    assert forall mf :: mf in sys.s.extra ==> SlotIsWaiting(sys.s.rob, mf, sys.s.extra[mf]);
    assert sys.s.extra == map[];
    if sys.s.requests != [] {
      HasMember(sys.s.requests);
    }
  }

  // the request at the head of the reorder buffer is queued, at memory, or filled
  lemma RobHeadIsTracked(cfg: Config, cap: Capacity, sys: TexSystem)
    requires SystemInv(cfg, cap, sys) && sys.s.rob.num > 0 && !sys.s.rob.slots[sys.s.rob.tail].ready
    ensures sys.s.requests != [] || sys.s.rob.slots[sys.s.rob.tail].request in sys.atMemory
  {
    sys.s.rob.PopRemovesOldest();
    assert sys.s.rob.Live(sys.s.rob.tail);
  }

  lemma FillDoesWork(cfg: Config, s: TexState, mf: MemFetch)
    requires cfg.lineSize > 0 && TexFill(cfg, s, mf).Some?
    ensures Work(TexFill(cfg, s, mf).value) < Work(s)
  {
    assert (s.extra - {mf}).Keys == s.extra.Keys - {mf};
    assert |(s.extra - {mf}).Keys| == |s.extra.Keys| - 1;
  }

  lemma CycleDoesWork(cfg: Config, cap: Capacity, sys: TexSystem)
    requires SystemInv(cfg, cap, sys) && |sys.s.results| < cap.results
    requires sys.s.requests != []
             || (sys.s.fragments != []
                 && (sys.s.fragments[0].miss ==> sys.s.rob.num > 0 && sys.s.rob.slots[sys.s.rob.tail].ready))
    ensures var next := Step(cfg, cap, sys, Cycle(false)); next.Some? && Work(next.value.s) < Work(sys.s)
  {
    hide Replay, Misses, Requests;
    CycleStep(cfg, cap, sys, false);
  }

  /** As long as something is pending, some step of a collecting client or of a
      willing lower level is possible and leaves less to do. */
  lemma SomeStepDrains(cfg: Config, cap: Capacity, sys: TexSystem) returns (e: TexEvent)
    requires SystemInv(cfg, cap, sys) && cap.results > 0 && !QueuesEmpty(sys.s)
    ensures Draining(e) && Legal(cfg, sys, e)
    ensures Step(cfg, cap, sys, e).Some? && Work(Step(cfg, cap, sys, e).value.s) < Work(sys.s)
  {
    var s := sys.s;
    if s.results != [] {
      e := Next;
    } else if s.requests != [] {
      e := Cycle(false);
      CycleDoesWork(cfg, cap, sys);
    } else {
      hide Replay, Misses, Requests, Step;
      if s.fragments == [] {
        NothingWithoutFragments(cfg, cap, sys);
      }
      if s.fragments[0].miss {
        MissHeadIsRobHead(cfg, cap, s);
      }
      if s.fragments[0].miss && !s.rob.slots[s.rob.tail].ready {
        e := FillHead(cfg, cap, sys);
      } else {
        e := Cycle(false);
        CycleDoesWork(cfg, cap, sys);
      }
    }
  }

  lemma FillHead(cfg: Config, cap: Capacity, sys: TexSystem) returns (e: TexEvent)
    requires SystemInv(cfg, cap, sys) && sys.s.requests == []
    requires sys.s.rob.num > 0 && !sys.s.rob.slots[sys.s.rob.tail].ready
    ensures e.Fill? && Legal(cfg, sys, e)
    ensures Step(cfg, cap, sys, e).Some? && Work(Step(cfg, cap, sys, e).value.s) < Work(sys.s)
  {
    hide Replay, Misses, Requests;
    RobHeadIsTracked(cfg, cap, sys);
    e := Fill(sys.s.rob.slots[sys.s.rob.tail].request);
    StepKeepsInv(cfg, cap, sys, e);
    FillDoesWork(cfg, sys.s, e.filled);
  }

  /** From every reachable state such steps lead to a state with nothing pending. */
  lemma {:induction false} DrainsCompletely(cfg: Config, cap: Capacity, sys: TexSystem) returns (events: seq<TexEvent>)
    requires SystemInv(cfg, cap, sys) && cap.results > 0
    ensures LegalRun(cfg, cap, sys, events) && |events| <= Work(sys.s)
    ensures forall e :: e in events ==> Draining(e)
    ensures Run(cfg, cap, sys, events).Some? && QueuesEmpty(Run(cfg, cap, sys, events).value.s)
    ensures var end := Run(cfg, cap, sys, events).value; end.delivered == end.accepted == sys.accepted
    decreases Work(sys.s)
  {
    hide SystemInv, Step, Legal, Draining;
    if QueuesEmpty(sys.s) {
      events := [];
      EmptyMeansDelivered(cfg, cap, sys);
    } else {
      var e := SomeStepDrains(cfg, cap, sys);
      StepKeepsInv(cfg, cap, sys, e);
      var next := Step(cfg, cap, sys, e).value;
      DrainingAcceptsNothing(cfg, cap, sys, e);
      var rest := DrainsCompletely(cfg, cap, next);
      events := [e] + rest;
      assert events[1..] == rest;
    }
  }

  lemma EmptyMeansDelivered(cfg: Config, cap: Capacity, sys: TexSystem)
    requires SystemInv(cfg, cap, sys) && QueuesEmpty(sys.s)
    ensures sys.delivered == sys.accepted
  {
    assert sys.s.results + Requests(sys.s.fragments) == [];
  }

  lemma DrainingAcceptsNothing(cfg: Config, cap: Capacity, sys: TexSystem, e: TexEvent)
    requires Draining(e) && Step(cfg, cap, sys, e).Some?
    ensures Step(cfg, cap, sys, e).value.accepted == sys.accepted
  {
  }
}
