/** When the texture cache fetches: exactly when the block is in no line of its set once
    the pending fragments have retired, and so again only after its line was taken. */
module TexHits {
  import opened CacheTypes
  import opened Options
  import opened TagArrays
  import opened TexModel
  import opened TexRuns

  // the line will hold the block once the pending fragments have retired
  ghost predicate Mapped(cfg: Config, s: TexState, line: nat, block: nat)
    requires cfg.lineSize > 0
  {
    line < |s.data| && Replay(cfg, s.data, s.fragments)[line] == Some(block)
  }

  // some line of its set will
  ghost predicate WillBeHere(cfg: Config, s: TexState, block: nat)
    requires cfg.lineSize > 0
  {
    exists line: nat :: InSet(cfg, block, line) && Mapped(cfg, s, line, block)
  }

  ghost predicate Room(cap: Capacity, s: TexState)
    requires s.rob.Ok()
  {
    |s.fragments| < cap.fragments && |s.requests| < cap.requests && !s.rob.Full()
  }

  // a search of plain tags
  lemma PlainProbe(cfg: Config, tags: Tags, block: nat, isWrite: bool)
    requires Sized(cfg, tags) && PlainTags(tags.lines) && cfg.BlockAddr(block) == block
    ensures var p := ProbeTags(cfg, tags, block, 0, isWrite);
      && (p.status == HIT ==> InSet(cfg, block, p.idx) && Holds(tags.lines[p.idx], block))
      && (forall j: nat :: InSet(cfg, block, j) && j < |tags.lines| && Holds(tags.lines[j], block) ==> p.status == HIT)
  {
    SetInRange(cfg, block);
    FirstMatchIsFirst(tags.lines, block, cfg.SetBase(block), cfg.SetBase(block) + cfg.assoc);
    var p := ProbeTags(cfg, tags, block, 0, isWrite);
    assert Plain(tags.lines[p.idx]);
  }

  lemma HeldIsMapped(cfg: Config, cap: Capacity, s: TexState, line: nat, block: nat)
    requires TexInv(cfg, cap, s) && line < |s.tags.lines|
    ensures Holds(s.tags.lines[line], block) <==> Mapped(cfg, s, line, block)
  {
    hide HitsWillFind, RobIsMisses, SlotsAgree, Misses, Replay;
    assert Plain(s.tags.lines[line]);
  }

  lemma ProbeIsReplay(cfg: Config, cap: Capacity, s: TexState, mf: MemFetch)
    requires TexInv(cfg, cap, s)
    ensures var block := cfg.BlockAddr(mf.addr);
      ProbeTags(cfg, s.tags, block, 0, mf.isWrite).status == HIT <==> WillBeHere(cfg, s, block)
  {
    hide HitsWillFind, RobIsMisses, SlotsAgree, Misses, Replay, ProbeTags, Holds, Mapped;
    var block := cfg.BlockAddr(mf.addr);
    BlockAddrTwice(cfg, mf.addr);
    PlainProbe(cfg, s.tags, block, mf.isWrite);
    forall line: nat | line < |s.tags.lines|
      ensures Holds(s.tags.lines[line], block) <==> Mapped(cfg, s, line, block)
    {
      HeldIsMapped(cfg, cap, s, line, block);
    }
    MappedIsLine(cfg, cap, s, block);
  }

  lemma MappedIsLine(cfg: Config, cap: Capacity, s: TexState, block: nat)
    requires TexInv(cfg, cap, s)
    ensures forall line: nat :: Mapped(cfg, s, line, block) ==> line < |s.tags.lines|
  {
  }

  /** An access is refused exactly without room for a fragment, a request and an entry of
      the reorder buffer.  Otherwise it answers HIT_RESERVED and fetches nothing exactly if
      its block will be in a line of its set, and MISS with one more request if not. */
  lemma AccessAnswers(cfg: Config, cap: Capacity, s: TexState, mf: MemFetch, time: nat)
    requires TexInv(cfg, cap, s) && mf !in s.extra && time < TIME_SENTINEL && mf.dataSize <= cfg.lineSize
    ensures TexAccess(cfg, cap, s, mf, time).Some?
    ensures var (o, here) := (TexAccess(cfg, cap, s, mf, time).value, WillBeHere(cfg, s, cfg.BlockAddr(mf.addr)));
      && o.status == (if !Room(cap, s) then RESERVATION_FAIL else if here then HIT_RESERVED else MISS)
      && o.s.requests == (if o.status == MISS then s.requests + [mf] else s.requests)
      && (o.status != MISS ==> o.s.rob == s.rob && o.s.extra == s.extra)
      && (o.status == MISS ==> o.s.rob.num == s.rob.num + 1 && o.s.extra.Keys == s.extra.Keys + {mf})
      && (o.status != RESERVATION_FAIL ==>
            |o.s.fragments| == |s.fragments| + 1 && o.s.fragments[|s.fragments|].miss == (o.status == MISS))
  {
    hide ProbeTags, WillBeHere, Replay, Misses;
    var block := cfg.BlockAddr(mf.addr);
    BlockAddrTwice(cfg, mf.addr);
    AccessKeepsInv(cfg, cap, s, mf, time);
    ProbeIsReplay(cfg, cap, s, mf);
    TexTagsAccess(cfg, s.tags, block, time, mf.isWrite, mf.bytes);
  }

  // ---- a mapped line stays mapped until it is taken ----

  // the event fetches another block into the line
  ghost predicate Takes(cfg: Config, cap: Capacity, sys: TexSystem, e: TexEvent, line: nat, block: nat)
    requires cfg.lineSize > 0
  {
    e.Access? && cfg.BlockAddr(e.mf.addr) != block &&
    match Step(cfg, cap, sys, e)
    case None => false
    case Some(next) =>
      |next.s.fragments| > |sys.s.fragments| && next.s.fragments[|sys.s.fragments|].miss
      && next.s.fragments[|sys.s.fragments|].cacheIndex == line
  }

  // what an access appends
  lemma AccessAppends(cfg: Config, cap: Capacity, s: TexState, mf: MemFetch, time: nat)
    requires TexInv(cfg, cap, s) && TexAccess(cfg, cap, s, mf, time).Some?
    ensures var o := TexAccess(cfg, cap, s, mf, time).value;
      && o.s.data == s.data
      && (o.status == RESERVATION_FAIL ==> o.s == s)
      && (o.status != RESERVATION_FAIL ==>
            exists f: Fragment :: f.request == mf && o.s.fragments == s.fragments + [f])
  {
    hide AccessTags, FillTags;
    InvGivesShape(cfg, cap, s);
    var o := TexAccess(cfg, cap, s, mf, time).value;
    if o.status != RESERVATION_FAIL {
      var r := AccessTags(cfg, s.tags, cfg.BlockAddr(mf.addr), time, cfg.SectorOf(mf), mf.isWrite);
      assert o.s.fragments == s.fragments + [Fragment(mf, r.idx, r.status == MISS)];
    }
  }

  lemma RetireKeepsMapped(cfg: Config, cap: Capacity, s: TexState)
    requires cfg.lineSize > 0 && s.rob.Ok() && TexRetire(cfg, cap, s).Some?
    requires s.fragments != [] && s.fragments[0].miss ==>
      s.rob.num > 0 && s.rob.slots[s.rob.tail].blockAddr == cfg.BlockAddr(s.fragments[0].request.addr)
    ensures var s' := TexRetire(cfg, cap, s).value;
      Replay(cfg, s'.data, s'.fragments) == Replay(cfg, s.data, s.fragments)
  {
  }

  lemma StepKeepsMapped(cfg: Config, cap: Capacity, sys: TexSystem, e: TexEvent, line: nat, block: nat)
    requires SystemInv(cfg, cap, sys) && Legal(cfg, sys, e) && cfg.lineSize > 0 && Step(cfg, cap, sys, e).Some?
    requires Mapped(cfg, sys.s, line, block) && !Takes(cfg, cap, sys, e, line, block)
    ensures Mapped(cfg, Step(cfg, cap, sys, e).value.s, line, block)
  {
    hide TexInv, TexAccess, TexRetire, Replay, Misses, Requests;
    var (s, next) := (sys.s, Step(cfg, cap, sys, e).value);
    InvGivesShape(cfg, cap, s);
    match e {
      case Access(mf, time) =>
        AccessAppends(cfg, cap, s, mf, time);
        if TexAccess(cfg, cap, s, mf, time).value.status != RESERVATION_FAIL {
          var f: Fragment :| f.request == mf && next.s.fragments == s.fragments + [f];
          ReplayAppends(cfg, s.data, s.fragments, f);
        }
      case Cycle(memFull) =>
        SendKeepsInv(cfg, cap, s, memFull);
        var s1 := TexSend(s, memFull);
        InvGivesShape(cfg, cap, s1);
        if s1.fragments != [] && s1.fragments[0].miss {
          MissHeadIsRobHead(cfg, cap, s1);
        }
        RetireKeepsMapped(cfg, cap, s1);
      case Fill(mf) =>
      case Next =>
    }
  }

  // some event of the run takes the line
  ghost predicate TakenIn(cfg: Config, cap: Capacity, sys: TexSystem, events: seq<TexEvent>, line: nat, block: nat)
    requires cfg.lineSize > 0
    decreases |events|
  {
    events != [] &&
    (Takes(cfg, cap, sys, events[0], line, block) ||
     match Step(cfg, cap, sys, events[0])
     case None => false
     case Some(next) => TakenIn(cfg, cap, next, events[1..], line, block))
  }

  lemma {:induction false} RunKeepsMapped(cfg: Config, cap: Capacity, sys: TexSystem, events: seq<TexEvent>,
                                          line: nat, block: nat)
    requires SystemInv(cfg, cap, sys) && LegalRun(cfg, cap, sys, events) && cfg.lineSize > 0
    requires Mapped(cfg, sys.s, line, block) && !TakenIn(cfg, cap, sys, events, line, block)
    ensures Run(cfg, cap, sys, events).Some? && Mapped(cfg, Run(cfg, cap, sys, events).value.s, line, block)
    decreases |events|
  {
    hide SystemInv, Step, Legal, Mapped, Takes;
    if events != [] {
      StepKeepsInv(cfg, cap, sys, events[0]);
      StepKeepsMapped(cfg, cap, sys, events[0], line, block);
      RunKeepsMapped(cfg, cap, Step(cfg, cap, sys, events[0]).value, events[1..], line, block);
    }
  }

  // an accepted access maps its block to the line of its fragment
  lemma AcceptedIsMapped(cfg: Config, cap: Capacity, s: TexState, mf: MemFetch, time: nat)
    requires TexInv(cfg, cap, s) && mf !in s.extra && time < TIME_SENTINEL && mf.dataSize <= cfg.lineSize
    requires TexAccess(cfg, cap, s, mf, time).Some?
    requires TexAccess(cfg, cap, s, mf, time).value.status != RESERVATION_FAIL
    ensures var s' := TexAccess(cfg, cap, s, mf, time).value.s;
      && |s'.fragments| == |s.fragments| + 1
      && InSet(cfg, cfg.BlockAddr(mf.addr), s'.fragments[|s.fragments|].cacheIndex)
      && Mapped(cfg, s', s'.fragments[|s.fragments|].cacheIndex, cfg.BlockAddr(mf.addr))
  {
    hide ProbeTags, Replay, Misses, Requests, SlotsAgree;
    var block := cfg.BlockAddr(mf.addr);
    BlockAddrTwice(cfg, mf.addr);
    AccessKeepsInv(cfg, cap, s, mf, time);
    TexTagsAccess(cfg, s.tags, block, time, mf.isWrite, mf.bytes);
    var (p, s') := (ProbeTags(cfg, s.tags, block, 0, mf.isWrite), TexAccess(cfg, cap, s, mf, time).value.s);
    assert s'.fragments[|s.fragments|] == Fragment(mf, p.idx, p.status == MISS);
    assert Replay(cfg, s'.data, s'.fragments)[p.idx] == Some(block);
  }

  lemma MissIsUnmapped(cfg: Config, cap: Capacity, s: TexState, mf: MemFetch, time: nat, line: nat)
    requires TexInv(cfg, cap, s) && mf !in s.extra && time < TIME_SENTINEL && mf.dataSize <= cfg.lineSize
    requires TexAccess(cfg, cap, s, mf, time).Some? && TexAccess(cfg, cap, s, mf, time).value.status == MISS
    requires InSet(cfg, cfg.BlockAddr(mf.addr), line)
    ensures !Mapped(cfg, s, line, cfg.BlockAddr(mf.addr))
  {
    hide TexInv, TexAccess, Mapped;
    AccessAnswers(cfg, cap, s, mf, time);
  }

  /** A block is fetched again only after its line was taken: in any run, after an access
      to a block was accepted, a later access to it is answered MISS only if an access
      between them fetched another block into the line that the first was given. */
  lemma FetchedAgainOnlyAfterTaken(cfg: Config, cap: Capacity, sys: TexSystem, first: MemFetch, time: nat,
                                   later: seq<TexEvent>, again: MemFetch, time': nat)
    requires SystemInv(cfg, cap, sys) && cfg.lineSize > 0 && Legal(cfg, sys, Access(first, time))
    requires TexAccess(cfg, cap, sys.s, first, time).Some?
    requires TexAccess(cfg, cap, sys.s, first, time).value.status != RESERVATION_FAIL
    requires Step(cfg, cap, sys, Access(first, time)).Some?
    requires var next := Step(cfg, cap, sys, Access(first, time)).value;
      && LegalRun(cfg, cap, next, later) && Run(cfg, cap, next, later).Some?
      && var at := Run(cfg, cap, next, later).value;
         && Legal(cfg, at, Access(again, time')) && cfg.BlockAddr(again.addr) == cfg.BlockAddr(first.addr)
         && Sized(cfg, at.s.tags) && at.s.rob.Ok()
         && TexAccess(cfg, cap, at.s, again, time').Some?
         && TexAccess(cfg, cap, at.s, again, time').value.status == MISS
    ensures var next := Step(cfg, cap, sys, Access(first, time)).value;
      && |next.s.fragments| == |sys.s.fragments| + 1
      && TakenIn(cfg, cap, next, later, next.s.fragments[|sys.s.fragments|].cacheIndex, cfg.BlockAddr(first.addr))
  {
    hide TexInv, TexAccess, Mapped, TakenIn, Run, LegalRun, FetchesTracked, Requests;
    var (next, block) := (Step(cfg, cap, sys, Access(first, time)).value, cfg.BlockAddr(first.addr));
    InvGivesShape(cfg, cap, sys.s);
    AcceptedIsMapped(cfg, cap, sys.s, first, time);
    StepKeepsInv(cfg, cap, sys, Access(first, time));
    RunKeepsInv(cfg, cap, next, later);
    var (at, line) := (Run(cfg, cap, next, later).value, next.s.fragments[|sys.s.fragments|].cacheIndex);
    MissIsUnmapped(cfg, cap, at.s, again, time', line);
    if !TakenIn(cfg, cap, next, later, line, block) {
      RunKeepsMapped(cfg, cap, next, later, line, block);
    }
  }
}
