/** When and in what order requests are answered: a hit after exactly the cycles that its
    data needs on the port, hits in the order in which they were accepted, and requests
    that waited for fetches in the order in which the fetches were filled. */
module CacheAnswers {
  import opened CacheTypes
  import opened TagArrays
  import opened CacheModel
  import opened CacheInvariant
  import opened CacheOperations
  import opened CacheCore
  import opened CacheTraffic
  import opened CacheRuns
  import opened CacheGuarantees

  // ---- the hit queue in an access ----

  ghost predicate SameQueues(s: CacheState, s': CacheState) {
    s'.hitQueue == s.hitQueue && s'.readyQueue == s.readyQueue && s'.ready == s.ready
  }

  lemma SendReadQueues(cfg: Config, s: CacheState, mf: MemFetch, idx: nat, time: nat)
    requires Sized(cfg, s.tags) && idx < |s.tags.lines| && SendRead(cfg, s, mf, idx, time).Some?
    ensures SameQueues(s, SendRead(cfg, s, mf, idx, time).value.s)
  {
    hide TagAccess, Pin, MshrAdd, MshrAccepts, MshrFull, Config.MshrAddr;
  }

  lemma WriteHitQueues(cfg: Config, s: CacheState, mf: MemFetch, idx: nat, time: nat)
    requires Sized(cfg, s.tags) && idx < |s.tags.lines| && WrHit(cfg, s, mf, idx, time).Some?
    ensures SameQueues(s, WrHit(cfg, s, mf, idx, time).value.s)
  {
    hide TagAccess, WriteInto, UpdateReadable, OnLine;
  }

  lemma WriteMissQueues(cfg: Config, s: CacheState, mf: MemFetch, idx: nat, time: nat, probed: RequestStatus)
    requires Sized(cfg, s.tags) && idx < |s.tags.lines| && WrMiss(cfg, s, mf, idx, time, probed).Some?
    ensures SameQueues(s, WrMiss(cfg, s, mf, idx, time, probed).value.s)
    ensures WrMiss(cfg, s, mf, idx, time, probed).value.status != HIT
  {
    hide TagAccess, WriteInto, LazyWrite, SendRead, MshrAccepts, OnLine, ReadAfterWritePending, Config.MshrAddr;
    match cfg.writeAllocate {
      case WRITE_ALLOCATE =>
        var sent := s.(missQueue := s.missQueue + [WritePacket(mf)], nextId := s.nextId + 1);
        if SendRead(cfg, sent, AllocateFetch(cfg, s, mf), idx, time).Some? {
          SendReadQueues(cfg, sent, AllocateFetch(cfg, s, mf), idx, time);
        }
      case FETCH_ON_WRITE =>
        var sent := s.(nextId := s.nextId + 1);
        if SendRead(cfg, sent, AllocateFetch(cfg, s, mf), idx, time).Some? {
          SendReadQueues(cfg, sent, AllocateFetch(cfg, s, mf), idx, time);
        }
      case _ =>
    }
  }

  lemma ReadQueues(cfg: Config, s: CacheState, mf: MemFetch, idx: nat, time: nat)
    requires Sized(cfg, s.tags) && idx < |s.tags.lines|
    ensures RdHit(cfg, s, mf, idx, time).Some? ==> SameQueues(s, RdHit(cfg, s, mf, idx, time).value.s)
    ensures RdMiss(cfg, s, mf, idx, time).Some? ==>
      SameQueues(s, RdMiss(cfg, s, mf, idx, time).value.s) && RdMiss(cfg, s, mf, idx, time).value.status != HIT
  {
    hide TagAccess, SendRead;
    if SendRead(cfg, s, mf, idx, time).Some? {
      SendReadQueues(cfg, s, mf, idx, time);
    }
  }

  lemma DispatchQueues(cfg: Config, s: CacheState, mf: MemFetch, time: nat, p: ProbeResult)
    requires Sized(cfg, s.tags) && p.idx < |s.tags.lines| && Dispatch(cfg, s, mf, time, p).Some?
    ensures SameQueues(s, Dispatch(cfg, s, mf, time, p).value.s)
    ensures p.status != HIT ==> Dispatch(cfg, s, mf, time, p).value.status != HIT
  {
    hide WrHit, WrMiss, RdHit, RdMiss;
    ReadQueues(cfg, s, mf, p.idx, time);
    if WrHit(cfg, s, mf, p.idx, time).Some? {
      WriteHitQueues(cfg, s, mf, p.idx, time);
    }
    if WrMiss(cfg, s, mf, p.idx, time, p.status).Some? {
      WriteMissQueues(cfg, s, mf, p.idx, time, p.status);
    }
  }

  ghost predicate Queues(cfg: Config, s: CacheState, mf: MemFetch, o: Outcome)
    requires cfg.portWidth > 0
  {
    && o.s.readyQueue == s.readyQueue && o.s.ready == s.ready
    && o.s.hitQueue == s.hitQueue + if o.status == HIT then [HitEntry(mf, HitLatency(cfg, mf))] else []
  }

  lemma AccessQueues(cfg: Config, s: CacheState, mf: MemFetch, time: nat)
    requires Sized(cfg, s.tags) && CacheAccess(cfg, s, mf, time).Some?
    ensures Queues(cfg, s, mf, CacheAccess(cfg, s, mf, time).value)
  {
    hide Dispatch, ProbeFor, TagAccess, SendRead, HitLatency, Pin;
    var p := ProbeFor(cfg, s, mf);
    assert s.hitQueue + [] == s.hitQueue;
    if cfg.writePolicy == READ_ONLY {
      if SendRead(cfg, s, mf, p.idx, time).Some? {
        SendReadQueues(cfg, s, mf, p.idx, time);
      }
    } else if Dispatch(cfg, s, mf, time, p).Some? {
      DispatchQueues(cfg, s, mf, time, p);
    }
  }

  // ---- one hit ----

  function CyclesIn(events: seq<CacheEvent>): nat {
    if events == [] then 0 else (if events[0].Cycle? then 1 else 0) + CyclesIn(events[1..])
  }

  // after n cycles the port has not yet passed the data of the request
  predicate OnPort(cfg: Config, mf: MemFetch, n: nat) { n == 0 || n * cfg.portWidth < mf.dataSize }

  lemma LatencyIs(cfg: Config, mf: MemFetch, n: nat)
    requires cfg.portWidth > 0
    ensures n < HitLatency(cfg, mf) <==> OnPort(cfg, mf, n)
  {
    var (w, q) := (cfg.portWidth, mf.dataSize / cfg.portWidth);
    QuotientBounds(mf.dataSize, w);
    if n < q {
      Product(n + 1, q, w);
    } else if n > q {
      Product(q + 1, n, w);
    }
  }

  lemma QuotientBounds(d: nat, w: nat)
    requires w > 0
    ensures d == (d / w) * w + d % w && d % w < w
  {
  }

  lemma Product(m: nat, n: nat, w: nat)
    requires 0 < m <= n
    ensures (m - 1) * w + w <= n * w && m * w <= n * w
  {
    assert m * w <= n * w;
    assert (m - 1) * w + w == m * w;
  }

  // what was appended
  function Since<T>(before: seq<T>, after: seq<T>): seq<T> {
    if |before| <= |after| then after[|before|..] else []
  }

  // the request waits r more cycles, or is ready
  ghost predicate ReadyIn(s: CacheState, mf: MemFetch, r: nat) {
    if r > 0 then HitEntry(mf, r) in s.hitQueue else mf in s.readyQueue
  }

  lemma {:induction false} TickReaches(q: seq<HitEntry>, mf: MemFetch, r: nat)
    requires HitEntry(mf, r) in q
    ensures r > 1 ==> HitEntry(mf, r - 1) in StillWaiting(q)
    ensures r <= 1 ==> mf in Expired(q)
  {
    if q[0] != HitEntry(mf, r) {
      TickReaches(q[1..], mf, r);
    }
  }

  lemma StepTicks(cfg: Config, sys: CacheSystem, e: CacheEvent, mf: MemFetch, r: nat)
    requires SystemInv(cfg, sys) && Step(cfg, sys, e).Some? && ReadyIn(sys.s, mf, r)
    requires mf !in Since(sys.delivered, Step(cfg, sys, e).value.delivered)
    ensures |Step(cfg, sys, e).value.delivered| >= |sys.delivered|
    ensures ReadyIn(Step(cfg, sys, e).value.s, mf, if e.Cycle? && r > 0 then r - 1 else r)
  {
    hide SystemInv, CoreInv, CacheAccess, Sized, FillTags, StillWaiting, Expired;
    match e {
      case Access(_, time) => AccessQueues(cfg, sys.s, e.mf, time);
      case Cycle(_) =>
        if r > 0 {
          TickReaches(sys.s.hitQueue, mf, r);
        }
      case Fill(_) =>
      case Next =>
    }
  }

  lemma {:induction false} DeliveredGrows(cfg: Config, sys: CacheSystem, events: seq<CacheEvent>)
    requires Run(cfg, sys, events).Some?
    ensures sys.delivered <= Run(cfg, sys, events).value.delivered
    decreases |events|
  {
    hide CacheAccess, CacheNext, CacheCycle, CacheFill, Sized;
    if events != [] {
      DeliveredGrows(cfg, Step(cfg, sys, events[0]).value, events[1..]);
    }
  }

  lemma {:induction false} RunTicks(cfg: Config, sys: CacheSystem, events: seq<CacheEvent>, mf: MemFetch, r: nat)
    requires cfg.lineSize > 0 && SystemInv(cfg, sys) && LegalRun(cfg, sys, events) && Run(cfg, sys, events).Some?
    requires ReadyIn(sys.s, mf, r) && mf !in Since(sys.delivered, Run(cfg, sys, events).value.delivered)
    ensures ReadyIn(Run(cfg, sys, events).value.s, mf, if r > CyclesIn(events) then r - CyclesIn(events) else 0)
    decreases |events|
  {
    hide SystemInv, Step, Legal, Impossible, ReadyIn;
    if events != [] {
      var (next, end) := (Step(cfg, sys, events[0]).value, Run(cfg, sys, events).value);
      StepKeepsInv(cfg, sys, events[0]);
      DeliveredGrows(cfg, sys, [events[0]]);
      DeliveredGrows(cfg, next, events[1..]);
      assert forall k :: |sys.delivered| <= k < |next.delivered| ==> next.delivered[k] == end.delivered[k];
      StepTicks(cfg, sys, events[0], mf, r);
      RunTicks(cfg, next, events[1..], mf, if events[0].Cycle? && r > 0 then r - 1 else r);
    }
  }

  // a request that waits is nowhere else
  lemma WaitsOnce(cfg: Config, s: CacheState, mf: MemFetch, r: nat)
    requires CoreInv(cfg, s) && HitEntry(mf, r) in s.hitQueue
    ensures mf !in s.readyQueue && (cfg.MshrAddr(mf.addr) in s.mshr ==> mf !in s.mshr[cfg.MshrAddr(mf.addr)])
    ensures r > 0 && multiset(Waiting(s.hitQueue))[mf] == 1 && mf in s.pending
  {
    hide AllShaped, PinsExact, PinsNamed, Config.MshrAddr;
    var i :| 0 <= i < |s.hitQueue| && s.hitQueue[i] == HitEntry(mf, r);
    assert Waiting(s.hitQueue)[i] == mf;
    assert Places(cfg, s, mf) == if mf in s.pending then 1 else 0;
  }

  lemma WaitingIs(q: seq<HitEntry>, mf: MemFetch)
    ensures mf in Waiting(q) <==> exists r :: HitEntry(mf, r) in q
  {
    if mf in Waiting(q) {
      var i :| 0 <= i < |q| && Waiting(q)[i] == mf;
      assert q[i] == HitEntry(mf, q[i].remaining);
    }
    if r :| HitEntry(mf, r) in q {
      var i :| 0 <= i < |q| && q[i] == HitEntry(mf, r);
      assert Waiting(q)[i] == mf;
    }
  }

  // the request was accepted with a hit
  ghost predicate Hits(cfg: Config, sys: CacheSystem, mf: MemFetch, time: nat) {
    Sized(cfg, sys.s.tags) && CacheAccess(cfg, sys.s, mf, time).Some?
    && CacheAccess(cfg, sys.s, mf, time).value.status == HIT
  }

  lemma HitEnters(cfg: Config, sys: CacheSystem, mf: MemFetch, time: nat)
    requires Hits(cfg, sys, mf, time)
    ensures Step(cfg, sys, Access(mf, time)).Some? && cfg.portWidth > 0 && HitLatency(cfg, mf) > 0
    ensures var next := Step(cfg, sys, Access(mf, time)).value;
      && next.s.hitQueue == sys.s.hitQueue + [HitEntry(mf, HitLatency(cfg, mf))]
      && next.s.readyQueue == sys.s.readyQueue && next.delivered == sys.delivered
      && ReadyIn(next.s, mf, HitLatency(cfg, mf))
  {
    hide CacheAccess;
    AccessQueues(cfg, sys.s, mf, time);
  }

  /** From any reachable state, under every policy: until it is delivered a hit waits exactly
      while the cycles seen since, times the width of the data port, fall short of its data
      size, and at least one cycle; after that it is in the ready queue. */
  lemma HitIsReadyExactlyWhen(cfg: Config, sys: CacheSystem, mf: MemFetch, time: nat, later: seq<CacheEvent>)
    requires cfg.Valid() && SystemInv(cfg, sys) && Legal(cfg, sys, Access(mf, time)) && Hits(cfg, sys, mf, time)
    requires Step(cfg, sys, Access(mf, time)).Some? ==>
      var next := Step(cfg, sys, Access(mf, time)).value;
      && LegalRun(cfg, next, later) && Run(cfg, next, later).Some?
      && mf !in Since(sys.delivered, Run(cfg, next, later).value.delivered)
    ensures Step(cfg, sys, Access(mf, time)).Some?
    ensures var end := Run(cfg, Step(cfg, sys, Access(mf, time)).value, later).value;
      && (mf in Waiting(end.s.hitQueue) <==> OnPort(cfg, mf, CyclesIn(later)))
      && (mf in end.s.readyQueue <==> !OnPort(cfg, mf, CyclesIn(later)))
  {
    hide SystemInv, Step, Legal, Impossible, Run, LegalRun, CoreInv, Hits, HitLatency, Waiting;
    HitEnters(cfg, sys, mf, time);
    StepKeepsInv(cfg, sys, Access(mf, time));
    var next := Step(cfg, sys, Access(mf, time)).value;
    var (end, r, n) := (Run(cfg, next, later).value, HitLatency(cfg, mf), CyclesIn(later));
    RunKeepsInv(cfg, next, later);
    RunTicks(cfg, next, later, mf, r);
    LatencyIs(cfg, mf, n);
    WaitingIs(end.s.hitQueue, mf);
    SystemIsCore(cfg, end);
    if n < r {
      WaitsOnce(cfg, end.s, mf, r - n);
    } else if k :| HitEntry(mf, k) in end.s.hitQueue {
      WaitsOnce(cfg, end.s, mf, k);
    }
  }

  lemma SystemIsCore(cfg: Config, sys: CacheSystem)
    requires SystemInv(cfg, sys)
    ensures CoreInv(cfg, sys.s)
  {
  }

  // ---- two hits ----

  // everything that was answered, or waits to be collected, in order
  function Answers(sys: CacheSystem): seq<MemFetch> { sys.delivered + sys.s.readyQueue }

  // b comes only after a
  ghost predicate Precedes(q: seq<MemFetch>, a: MemFetch, b: MemFetch) {
    forall j :: 0 <= j < |q| && q[j] == b ==> exists i :: 0 <= i < j && q[i] == a
  }

  lemma PrecedesGrows(q: seq<MemFetch>, r: seq<MemFetch>, a: MemFetch, b: MemFetch)
    requires Precedes(q, a, b) && (a in q || Precedes(r, a, b))
    ensures Precedes(q + r, a, b)
  {
    forall j | 0 <= j < |q + r| && (q + r)[j] == b
      ensures exists i :: 0 <= i < j && (q + r)[i] == a
    {
      if j < |q| {
        var i :| 0 <= i < j && q[i] == a;
        assert (q + r)[i] == a;
      } else if a in q {
        var i :| 0 <= i < |q| && q[i] == a;
        assert (q + r)[i] == a;
      } else {
        assert r[j - |q|] == b;
        var i :| 0 <= i < j - |q| && r[i] == a;
        assert (q + r)[|q| + i] == a;
      }
    }
  }

  ghost predicate Waits(q: seq<HitEntry>, b: MemFetch, r: nat) {
    forall j :: 0 <= j < |q| && q[j].mf == b ==> q[j].remaining >= r
  }

  // a waits r cycles, and b waits behind it at least as long
  ghost predicate Ahead(q: seq<HitEntry>, a: MemFetch, b: MemFetch, i: nat, r: nat) {
    && i < |q| && q[i] == HitEntry(a, r) && Waits(q, b, r)
    && forall j :: 0 <= j <= i ==> q[j].mf != b
  }

  lemma {:induction false} TickKeepsAhead(q: seq<HitEntry>, a: MemFetch, b: MemFetch, i: nat, r: nat) returns (k: nat)
    requires Ahead(q, a, b, i, r) && r > 1
    ensures Ahead(StillWaiting(q), a, b, k, r - 1) && b !in Expired(q)
    decreases |q|
  {
    var rest := StillWaiting(q[1..]);
    var head := if q[0].remaining > 1 then [HitEntry(q[0].mf, q[0].remaining - 1)] else [];
    assert StillWaiting(q) == head + rest;
    NotYet(q, b, r);
    if i == 0 {
      k := 0;
    } else {
      TailIsAhead(q, a, b, i, r);
      k := TickKeepsAhead(q[1..], a, b, i - 1, r);
      k := k + |head|;
    }
  }

  lemma TailIsAhead(q: seq<HitEntry>, a: MemFetch, b: MemFetch, i: nat, r: nat)
    requires Ahead(q, a, b, i, r) && i > 0
    ensures Ahead(q[1..], a, b, i - 1, r)
  {
    assert forall j :: 0 <= j < |q[1..]| ==> q[1..][j] == q[j + 1];
  }

  lemma {:induction false} NotYet(q: seq<HitEntry>, b: MemFetch, r: nat)
    requires r > 1 && Waits(q, b, r)
    ensures b !in Expired(q) && Waits(StillWaiting(q), b, r - 1)
    decreases |q|
  {
    if q != [] {
      assert Waits(q[1..], b, r) by {
        assert forall j :: 0 <= j < |q[1..]| ==> q[1..][j] == q[j + 1];
      }
      NotYet(q[1..], b, r);
    }
  }

  lemma {:induction false} ExpiresFirst(q: seq<HitEntry>, a: MemFetch, b: MemFetch, i: nat, r: nat)
    requires Ahead(q, a, b, i, r) && r <= 1
    ensures a in Expired(q) && Precedes(Expired(q), a, b)
    decreases |q|
  {
    if i > 0 {
      TailIsAhead(q, a, b, i, r);
      ExpiresFirst(q[1..], a, b, i - 1, r);
      assert q[0].mf != b;
      PrecedesGrows(if q[0].remaining > 1 then [] else [q[0].mf], Expired(q[1..]), a, b);
    } else {
      PrecedesGrows([a], Expired(q[1..]), a, b);
    }
  }

  // b is still to come behind a, or a was answered first
  ghost predicate InTurn(sys: CacheSystem, answered: seq<MemFetch>, a: MemFetch, b: MemFetch) {
    || (a in answered && Precedes(answered, a, b))
    || (b !in answered && b in Waiting(sys.s.hitQueue) && exists i, r :: Ahead(sys.s.hitQueue, a, b, i, r))
  }

  ghost function NewAnswers(sys: CacheSystem, e: CacheEvent): seq<MemFetch> {
    match e
    case Access(_, _) => []
    case Cycle(_) => Expired(sys.s.hitQueue)
    case Fill(_) => []
    case Next => if sys.s.readyQueue == [] && CacheNext(sys.s).Some? then [CacheNext(sys.s).value.mf] else []
  }

  lemma AnswersGrow(cfg: Config, sys: CacheSystem, e: CacheEvent)
    requires Step(cfg, sys, e).Some?
    ensures Answers(Step(cfg, sys, e).value) == Answers(sys) + NewAnswers(sys, e)
  {
    hide CacheAccess, Sized, FillTags, StillWaiting, Expired, OnLine;
    var (next, q) := (Step(cfg, sys, e).value, sys.s.readyQueue);
    assert Answers(sys) + [] == Answers(sys);
    match e {
      case Access(mf, time) => AccessQueues(cfg, sys.s, mf, time);
      case Cycle(_) => assert sys.delivered + (q + Expired(sys.s.hitQueue)) == Answers(next);
      case Fill(_) =>
      case Next =>
        if q != [] {
          assert next.delivered == sys.delivered + [q[0]] && next.s.readyQueue == q[1..];
          assert q == [q[0]] + q[1..];
        } else {
          assert next.delivered == sys.delivered + NewAnswers(sys, e) && next.s.readyQueue == [];
        }
    }
  }

  lemma CycleKeepsTurn(cfg: Config, sys: CacheSystem, e: CacheEvent, answered: seq<MemFetch>, a: MemFetch, b: MemFetch,
                       i: nat, r: nat)
    requires Step(cfg, sys, e).Some? && e.Cycle? && b !in answered && b in Waiting(sys.s.hitQueue)
    requires Ahead(sys.s.hitQueue, a, b, i, r)
    ensures InTurn(Step(cfg, sys, e).value, answered + NewAnswers(sys, e), a, b)
  {
    hide Ahead, Waiting, StillWaiting, Expired, Precedes, CacheAccess, CacheFill, CacheNext, Sized;
    var q := sys.s.hitQueue;
    if r > 1 {
      var k := TickKeepsAhead(q, a, b, i, r);
      WaitingIs(q, b);
      var t :| HitEntry(b, t) in q;
      BehindWaits(q, a, b, i, r, t);
      TickReaches(q, b, t);
      WaitingIs(StillWaiting(q), b);
    } else {
      ExpiresFirst(q, a, b, i, r);
      NoneToPrecede(answered, a, b);
      PrecedesGrows(answered, Expired(q), a, b);
    }
  }

  lemma BehindWaits(q: seq<HitEntry>, a: MemFetch, b: MemFetch, i: nat, r: nat, t: nat)
    requires Ahead(q, a, b, i, r) && HitEntry(b, t) in q
    ensures t >= r
  {
  }

  lemma NoneToPrecede(q: seq<MemFetch>, a: MemFetch, b: MemFetch)
    requires b !in q
    ensures Precedes(q, a, b)
  {
  }

  lemma AppendKeepsAhead(q: seq<HitEntry>, q': seq<HitEntry>, mf: MemFetch, a: MemFetch, b: MemFetch, i: nat, r: nat)
    requires Ahead(q, a, b, i, r) && b in Waiting(q) && mf != b
    requires q' == q || exists n :: q' == q + [HitEntry(mf, n)]
    ensures Ahead(q', a, b, i, r) && b in Waiting(q')
  {
    var j :| 0 <= j < |q| && Waiting(q)[j] == b;
    assert Waiting(q')[j] == b;
  }

  lemma OthersEnter(cfg: Config, sys: CacheSystem, e: CacheEvent)
    requires Step(cfg, sys, e).Some? && !e.Cycle?
    ensures var (q, q') := (sys.s.hitQueue, Step(cfg, sys, e).value.s.hitQueue);
      q' == q || (e.Access? && exists n :: q' == q + [HitEntry(e.mf, n)])
  {
    hide CacheAccess, Sized, FillTags, OnLine, HitLatency;
    if e.Access? {
      AccessQueues(cfg, sys.s, e.mf, e.time);
    }
  }

  lemma WaiterIsNotAnswered(cfg: Config, sys: CacheSystem, e: CacheEvent, b: MemFetch, t: nat)
    requires cfg.lineSize > 0 && CoreInv(cfg, sys.s) && Legal(cfg, sys, e) && !e.Cycle?
    requires HitEntry(b, t) in sys.s.hitQueue
    ensures b !in NewAnswers(sys, e) && (e.Access? ==> e.mf != b)
  {
    hide CoreInv, Config.MshrAddr, Unpin;
    WaitsOnce(cfg, sys.s, b, t);
    if e.Next? && sys.s.readyQueue == [] && CacheNext(sys.s).Some? {
      ListedAtItsAddress(cfg, sys.s, sys.s.ready[0]);
    }
  }

  lemma ListedAtItsAddress(cfg: Config, s: CacheState, a: nat)
    requires CoreInv(cfg, s) && a in s.mshr && s.mshr[a] != []
    ensures cfg.MshrAddr(s.mshr[a][0].addr) == a
  {
    hide AllShaped, PinsExact, PinsNamed, Accounted, Config.MshrAddr;
    assert IsMember(cfg, s.mshr[a][0], a, s.pending);
  }

  lemma StepKeepsTurn(cfg: Config, sys: CacheSystem, e: CacheEvent, answered: seq<MemFetch>, a: MemFetch, b: MemFetch)
    requires cfg.lineSize > 0 && SystemInv(cfg, sys) && Legal(cfg, sys, e) && Step(cfg, sys, e).Some?
    requires InTurn(sys, answered, a, b)
    ensures InTurn(Step(cfg, sys, e).value, answered + NewAnswers(sys, e), a, b)
  {
    hide SystemInv, CoreInv, Ahead, Waiting, Precedes, Step, Legal, Config.MshrAddr;
    SystemIsCore(cfg, sys);
    if a in answered && Precedes(answered, a, b) {
      PrecedesGrows(answered, NewAnswers(sys, e), a, b);
    } else {
      var i, r :| Ahead(sys.s.hitQueue, a, b, i, r);
      if e.Cycle? {
        CycleKeepsTurn(cfg, sys, e, answered, a, b, i, r);
      } else {
        WaitingIs(sys.s.hitQueue, b);
        var t :| HitEntry(b, t) in sys.s.hitQueue;
        OthersEnter(cfg, sys, e);
        WaiterIsNotAnswered(cfg, sys, e, b, t);
        var q' := Step(cfg, sys, e).value.s.hitQueue;
        if q' != sys.s.hitQueue {
          AppendKeepsAhead(sys.s.hitQueue, q', e.mf, a, b, i, r);
        }
      }
    }
  }

  lemma {:induction false} RunKeepsTurn(cfg: Config, sys: CacheSystem, events: seq<CacheEvent>, answered: seq<MemFetch>,
                                        a: MemFetch, b: MemFetch) returns (more: seq<MemFetch>)
    requires cfg.lineSize > 0 && SystemInv(cfg, sys) && LegalRun(cfg, sys, events) && Run(cfg, sys, events).Some?
    requires InTurn(sys, answered, a, b)
    ensures Answers(Run(cfg, sys, events).value) == Answers(sys) + more
    ensures InTurn(Run(cfg, sys, events).value, answered + more, a, b)
    decreases |events|
  {
    hide SystemInv, Step, Legal, Impossible, InTurn, Answers, NewAnswers;
    if events == [] {
      more := [];
      assert answered + more == answered;
    } else {
      var (next, now) := (Step(cfg, sys, events[0]).value, NewAnswers(sys, events[0]));
      StepKeepsInv(cfg, sys, events[0]);
      StepKeepsTurn(cfg, sys, events[0], answered, a, b);
      AnswersGrow(cfg, sys, events[0]);
      var rest := RunKeepsTurn(cfg, next, events[1..], answered + now, a, b);
      more := now + rest;
      assert answered + now + rest == answered + more && Answers(sys) + now + rest == Answers(sys) + more;
    }
  }

  lemma EntersInTurn(cfg: Config, sys: CacheSystem, a: MemFetch, r: nat, b: MemFetch, time: nat)
    requires CoreInv(cfg, sys.s) && Hits(cfg, sys, b, time) && HitEntry(a, r) in sys.s.hitQueue && b !in sys.s.pending
    requires r <= HitLatency(cfg, b) && Step(cfg, sys, Access(b, time)).Some?
    ensures InTurn(Step(cfg, sys, Access(b, time)).value, [], a, b)
  {
    hide CoreInv, Step, HitLatency;
    HitEnters(cfg, sys, b, time);
    var (q, q') := (sys.s.hitQueue, Step(cfg, sys, Access(b, time)).value.s.hitQueue);
    var i :| 0 <= i < |q| && q[i] == HitEntry(a, r);
    forall j | 0 <= j < |q| && q[j].mf == b
      ensures false
    {
      WaitsOnce(cfg, sys.s, b, q[j].remaining);
    }
    assert Waiting(q')[|q|] == b;
    assert Ahead(q', a, b, i, r);
  }

  /** From any reachable state, under every policy: of two hits the one accepted first is
      answered first, if it does not have more cycles left than the other needs. */
  lemma HitsAnswerInOrder(cfg: Config, sys: CacheSystem, a: MemFetch, r: nat, b: MemFetch, time: nat,
                          later: seq<CacheEvent>)
    requires cfg.Valid() && SystemInv(cfg, sys) && Legal(cfg, sys, Access(b, time)) && Hits(cfg, sys, b, time)
    requires HitEntry(a, r) in sys.s.hitQueue && r <= HitLatency(cfg, b)
    requires Step(cfg, sys, Access(b, time)).Some? ==>
      var next := Step(cfg, sys, Access(b, time)).value; LegalRun(cfg, next, later) && Run(cfg, next, later).Some?
    ensures Step(cfg, sys, Access(b, time)).Some?
    ensures var end := Run(cfg, Step(cfg, sys, Access(b, time)).value, later).value;
      Answers(sys) <= Answers(end) && Precedes(Since(Answers(sys), Answers(end)), a, b)
  {
    hide SystemInv, Step, Impossible, Run, LegalRun, CoreInv, Hits, HitLatency, Waiting, CacheAccess, Precedes, Ahead;
    SystemIsCore(cfg, sys);
    HitEnters(cfg, sys, b, time);
    var next := Step(cfg, sys, Access(b, time)).value;
    StepKeepsInv(cfg, sys, Access(b, time));
    EntersInTurn(cfg, sys, a, r, b, time);
    AnswersGrow(cfg, sys, Access(b, time));
    assert Answers(next) == Answers(sys);
    var more := RunKeepsTurn(cfg, next, later, [], a, b);
    assert [] + more == more;
    if b !in more {
      NoneToPrecede(more, a, b);
    }
  }

  // ---- two fetches ----

  // a waits at an entry that is answered before the entry at which b waits
  ghost predicate ReadyBefore(s: CacheState, a: MemFetch, b: MemFetch, i: nat, j: nat) {
    && i < j < |s.ready| && s.ready[i] in s.mshr && s.ready[j] in s.mshr
    && a in s.mshr[s.ready[i]] && b in s.mshr[s.ready[j]]
  }

  ghost predicate InFillOrder(s: CacheState, delivered: seq<MemFetch>, a: MemFetch, b: MemFetch) {
    || (a in delivered && Precedes(delivered, a, b))
    || (b !in delivered && exists i, j :: ReadyBefore(s, a, b, i, j))
  }

  ghost function NewDeliveries(sys: CacheSystem, e: CacheEvent): seq<MemFetch> {
    if e.Next? && CacheNext(sys.s).Some? then [CacheNext(sys.s).value.mf] else []
  }

  lemma DeliveredIs(cfg: Config, sys: CacheSystem, e: CacheEvent)
    requires Step(cfg, sys, e).Some?
    ensures Step(cfg, sys, e).value.delivered == sys.delivered + NewDeliveries(sys, e)
  {
    hide CacheAccess, CacheNext, CacheCycle, CacheFill, Sized;
    assert sys.delivered + [] == sys.delivered;
  }

  // a request listed at an entry is nowhere else, and at its own address
  lemma ListedOnce(cfg: Config, s: CacheState, x: nat, mf: MemFetch)
    requires CoreInv(cfg, s) && x in s.mshr && mf in s.mshr[x]
    ensures cfg.MshrAddr(mf.addr) == x && mf !in s.readyQueue
  {
    hide AllShaped, PinsExact, PinsNamed, Config.MshrAddr;
    var k :| 0 <= k < |s.mshr[x]| && s.mshr[x][k] == mf;
    assert IsMember(cfg, s.mshr[x][k], x, s.pending);
    assert Places(cfg, s, mf) == if mf in s.pending then 1 else 0;
  }

  lemma ReadyIsDistinct(cfg: Config, s: CacheState)
    requires CoreInv(cfg, s)
    ensures Distinct(s.ready)
  {
    hide AllShaped, PinsExact, PinsNamed, Config.MshrAddr, Accounted;
  }

  lemma GrowthKeepsBefore(s: CacheState, s': CacheState, a: MemFetch, b: MemFetch, i: nat, j: nat)
    requires ReadyBefore(s, a, b, i, j) && s.ready <= s'.ready
    requires forall x :: x in s.mshr ==> x in s'.mshr && s.mshr[x] <= s'.mshr[x]
    ensures ReadyBefore(s', a, b, i, j)
  {
    var (x, y) := (s.ready[i], s.ready[j]);
    assert s'.mshr[x] == s.mshr[x] + s'.mshr[x][|s.mshr[x]|..] && s'.mshr[y] == s.mshr[y] + s'.mshr[y][|s.mshr[y]|..];
  }

  // every event but a delivery lets the table and the list of ready entries grow
  lemma TableGrows(cfg: Config, sys: CacheSystem, e: CacheEvent)
    requires cfg.lineSize > 0 && SystemInv(cfg, sys) && Legal(cfg, sys, e) && Step(cfg, sys, e).Some? && !e.Next?
    ensures var s' := Step(cfg, sys, e).value.s;
      sys.s.ready <= s'.ready && forall x :: x in sys.s.mshr ==> x in s'.mshr && sys.s.mshr[x] <= s'.mshr[x]
  {
    hide SystemInv, CoreInv, CacheAccess, Sized, FillTags, StillWaiting, Expired, Presentable, Owed, Config.MshrAddr;
    if e.Access? {
      SystemIsCore(cfg, sys);
      AccessQueues(cfg, sys.s, e.mf, e.time);
      var fetch := AccessTracks(cfg, sys.s, e.mf, e.time);
    }
  }

  lemma DeliveryKeepsBefore(cfg: Config, s: CacheState, a: MemFetch, b: MemFetch, i: nat, j: nat)
    requires cfg.lineSize > 0 && CoreInv(cfg, s) && CacheNext(s).Some? && ReadyBefore(s, a, b, i, j)
    ensures CacheNext(s).value.mf != b
    ensures CacheNext(s).value.mf != a ==> exists i', j' :: ReadyBefore(CacheNext(s).value.s, a, b, i', j')
  {
    hide CoreInv, Config.MshrAddr, OnLine, Block.Unpin, Block.IsPinned;
    ReadyIsDistinct(cfg, s);
    ListedOnce(cfg, s, s.ready[i], a);
    ListedOnce(cfg, s, s.ready[j], b);
    var s' := CacheNext(s).value.s;
    if s.readyQueue != [] {
      assert ReadyBefore(s', a, b, i, j);
    } else {
      ListedOnce(cfg, s, s.ready[0], CacheNext(s).value.mf);
      if CacheNext(s).value.mf != a {
        TakenKeepsBefore(s, s', a, b, i, j);
      }
    }
  }

  // the first ready entry gives up its head, and its place when it has nothing left
  lemma TakenKeepsBefore(s: CacheState, s': CacheState, a: MemFetch, b: MemFetch, i: nat, j: nat)
    requires ReadyBefore(s, a, b, i, j) && Distinct(s.ready)
    requires s.ready[0] in s.mshr && s.mshr[s.ready[0]] != [] && s.mshr[s.ready[0]][0] != a
    requires var (x, q) := (s.ready[0], s.mshr[s.ready[0]]);
      if |q| == 1 then s'.mshr == s.mshr - {x} && s'.ready == s.ready[1..]
      else s'.mshr == s.mshr[x := q[1..]] && s'.ready == s.ready
    ensures exists i', j' :: ReadyBefore(s', a, b, i', j')
  {
    var q := s.mshr[s.ready[0]];
    if |q| == 1 {
      assert ReadyBefore(s', a, b, i - 1, j - 1);
    } else {
      assert q == [q[0]] + q[1..];
      assert ReadyBefore(s', a, b, i, j);
    }
  }

  lemma StepKeepsFillOrder(cfg: Config, sys: CacheSystem, e: CacheEvent, delivered: seq<MemFetch>, a: MemFetch,
                           b: MemFetch)
    requires cfg.lineSize > 0 && SystemInv(cfg, sys) && Legal(cfg, sys, e) && Step(cfg, sys, e).Some?
    requires InFillOrder(sys.s, delivered, a, b)
    ensures InFillOrder(Step(cfg, sys, e).value.s, delivered + NewDeliveries(sys, e), a, b)
  {
    hide SystemInv, CoreInv, ReadyBefore, Precedes, Step, Legal, CacheNext;
    if a in delivered && Precedes(delivered, a, b) {
      PrecedesGrows(delivered, NewDeliveries(sys, e), a, b);
    } else {
      var i, j :| ReadyBefore(sys.s, a, b, i, j);
      if e.Next? {
        SystemIsCore(cfg, sys);
        StepIs(cfg, sys, e);
        DeliveryKeepsBefore(cfg, sys.s, a, b, i, j);
        NoneToPrecede(delivered + NewDeliveries(sys, e), a, b);
      } else {
        TableGrows(cfg, sys, e);
        GrowthKeepsBefore(sys.s, Step(cfg, sys, e).value.s, a, b, i, j);
      }
    }
  }

  lemma {:induction false} RunKeepsFillOrder(cfg: Config, sys: CacheSystem, events: seq<CacheEvent>,
                                             delivered: seq<MemFetch>, a: MemFetch, b: MemFetch)
      returns (more: seq<MemFetch>)
    requires cfg.lineSize > 0 && SystemInv(cfg, sys) && LegalRun(cfg, sys, events) && Run(cfg, sys, events).Some?
    requires InFillOrder(sys.s, delivered, a, b)
    ensures Run(cfg, sys, events).value.delivered == sys.delivered + more
    ensures InFillOrder(Run(cfg, sys, events).value.s, delivered + more, a, b)
    decreases |events|
  {
    hide SystemInv, Step, Legal, Impossible, InFillOrder, NewDeliveries;
    if events == [] {
      more := [];
      assert delivered + more == delivered;
    } else {
      var (next, now) := (Step(cfg, sys, events[0]).value, NewDeliveries(sys, events[0]));
      StepKeepsInv(cfg, sys, events[0]);
      StepKeepsFillOrder(cfg, sys, events[0], delivered, a, b);
      DeliveredIs(cfg, sys, events[0]);
      var rest := RunKeepsFillOrder(cfg, next, events[1..], delivered + now, a, b);
      more := now + rest;
      assert delivered + now + rest == delivered + more && sys.delivered + now + rest == sys.delivered + more;
    }
  }

  lemma FilledIsLast(cfg: Config, sys: CacheSystem, f: MemFetch)
    requires cfg.lineSize > 0 && SystemInv(cfg, sys) && f in sys.atMemory && Step(cfg, sys, Fill(f)).Some?
    ensures var s' := Step(cfg, sys, Fill(f)).value.s;
      s'.mshr == sys.s.mshr && s'.ready == sys.s.ready + [cfg.MshrAddr(f.addr)]
  {
    hide CoreInv, Config.MshrAddr, Sized, FillTags, EntriesInOrder, Reads;
    FillFindsItsPin(cfg, sys.s, f);
  }

  /** From any reachable state, under every policy: a request whose fetch was filled and that
      was not yet delivered is delivered before every request that waits for a fetch filled
      later. */
  lemma FillsAnswerInOrder(cfg: Config, sys: CacheSystem, x: nat, a: MemFetch, f: MemFetch, b: MemFetch,
                           later: seq<CacheEvent>)
    requires cfg.Valid() && SystemInv(cfg, sys) && Legal(cfg, sys, Fill(f))
    requires x in sys.s.ready && x in sys.s.mshr && a in sys.s.mshr[x]
    requires cfg.MshrAddr(f.addr) in sys.s.mshr && b in sys.s.mshr[cfg.MshrAddr(f.addr)]
    requires Step(cfg, sys, Fill(f)).Some? ==>
      var next := Step(cfg, sys, Fill(f)).value; LegalRun(cfg, next, later) && Run(cfg, next, later).Some?
    ensures Step(cfg, sys, Fill(f)).Some?
    ensures var end := Run(cfg, Step(cfg, sys, Fill(f)).value, later).value;
      sys.delivered <= end.delivered && Precedes(Since(sys.delivered, end.delivered), a, b)
  {
    hide SystemInv, Step, Run, LegalRun, CoreInv, Precedes, Config.MshrAddr;
    FillStep(cfg, sys, f);
    var next := Step(cfg, sys, Fill(f)).value;
    DeliveredIs(cfg, sys, Fill(f));
    FilledIsLast(cfg, sys, f);
    var i :| 0 <= i < |sys.s.ready| && sys.s.ready[i] == x;
    assert ReadyBefore(next.s, a, b, i, |sys.s.ready|);
    var more := RunKeepsFillOrder(cfg, next, later, [], a, b);
    assert [] + more == more;
    if b !in more {
      NoneToPrecede(more, a, b);
    }
  }
}
