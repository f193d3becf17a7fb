/** The texture cache on values: tags run ahead of the data array, and a
    fragment queue and a reorder buffer reconcile them in order. */
module TexModel {
  import opened CacheTypes
  import opened Options
  import opened TagArrays
  import opened CircularFifo

  datatype Fragment = Fragment(request: MemFetch, cacheIndex: nat, miss: bool)
  datatype RobEntry = RobEntry(ready: bool, index: nat, request: MemFetch, blockAddr: nat)
  datatype Capacity = Capacity(fragments: nat, requests: nat, results: nat)

  // the data array: the block address each line really holds, if any
  type DataArray = seq<Option<nat>>

  datatype TexState = TexState(tags: Tags, fragments: seq<Fragment>, requests: seq<MemFetch>,
                               rob: Ring<RobEntry>, data: DataArray, results: seq<MemFetch>,
                               extra: map<MemFetch, nat>)

  datatype TexOutcome = TexOutcome(s: TexState, status: RequestStatus)

  // ---- the invariant ----

  ghost predicate Plain(b: Block) {
    && b.pins == 0 && !b.byteMaskOnFill
    && (b.sectors[0].status == VALID || b.sectors[0].status == INVALID) && !b.sectors[0].modifiedOnFill
    && b.sectors[1].status == INVALID && b.sectors[2].status == INVALID && b.sectors[3].status == INVALID
  }

  ghost predicate PlainTags(lines: seq<Block>) {
    forall i :: 0 <= i < |lines| ==> Plain(lines[i])
  }

  function Place(cfg: Config, data: DataArray, f: Fragment): (r: DataArray)
    requires cfg.lineSize > 0
    ensures |r| == |data|
  {
    if f.miss && f.cacheIndex < |data| then data[f.cacheIndex := Some(cfg.BlockAddr(f.request.addr))] else data
  }

  /** The data array once every pending miss fragment has retired, in order. */
  function Replay(cfg: Config, data: DataArray, fragments: seq<Fragment>): (r: DataArray)
    requires cfg.lineSize > 0
    ensures |r| == |data|
    decreases |fragments|
  {
    if fragments == [] then data else Replay(cfg, Place(cfg, data, fragments[0]), fragments[1..])
  }

  // the tags describe the lines as they will be once the fragments have retired
  ghost predicate TagsAreAhead(cfg: Config, lines: seq<Block>, data: DataArray, fragments: seq<Fragment>)
    requires cfg.lineSize > 0
  {
    && |data| == |lines|
    && forall i :: 0 <= i < |lines| ==>
         Replay(cfg, data, fragments)[i] == if lines[i].sectors[0].status == VALID then Some(lines[i].tag) else None
  }

  // every pending hit finds its own block once the fragments before it have retired
  ghost predicate HitsWillFind(cfg: Config, data: DataArray, fragments: seq<Fragment>)
    requires cfg.lineSize > 0
  {
    forall j :: 0 <= j < |fragments| ==>
      && fragments[j].cacheIndex < |data|
      && (!fragments[j].miss ==> Replay(cfg, data, fragments[..j])[fragments[j].cacheIndex]
                                 == Some(cfg.BlockAddr(fragments[j].request.addr)))
  }

  function Misses(fragments: seq<Fragment>): seq<Fragment> {
    if fragments == [] then []
    else (if fragments[0].miss then [fragments[0]] else []) + Misses(fragments[1..])
  }

  ghost predicate Corresponds(cfg: Config, e: RobEntry, f: Fragment)
    requires cfg.lineSize > 0
  {
    e.request == f.request && e.index == f.cacheIndex && e.blockAddr == cfg.BlockAddr(f.request.addr)
  }

  // the reorder buffer is exactly the miss fragments, in order
  ghost predicate RobIsMisses(cfg: Config, rob: seq<RobEntry>, fragments: seq<Fragment>)
    requires cfg.lineSize > 0
  {
    && |rob| == |Misses(fragments)|
    && forall k :: 0 <= k < |rob| ==> Corresponds(cfg, rob[k], Misses(fragments)[k])
  }

  // a saved slot number names the live entry of its request, still waiting for data
  ghost predicate SlotIsWaiting(rob: Ring<RobEntry>, mf: MemFetch, slot: nat)
    requires rob.Ok()
  {
    rob.Live(slot) && rob.slots[slot].request == mf && !rob.slots[slot].ready
  }

  ghost predicate SlotsAgree(rob: Ring<RobEntry>, extra: map<MemFetch, nat>)
    requires rob.Ok()
  {
    && (forall mf :: mf in extra ==> SlotIsWaiting(rob, mf, extra[mf]))
    && (forall slot: nat :: rob.Live(slot) && !rob.slots[slot].ready
                            ==> rob.slots[slot].request in extra && extra[rob.slots[slot].request] == slot)
  }

  ghost predicate TexInv(cfg: Config, cap: Capacity, s: TexState) {
    && cfg.cacheType == NORMAL && Sized(cfg, s.tags) && s.rob.Ok()
    && PlainTags(s.tags.lines) && TimesBelowSentinel(s.tags.lines)
    && TagsAreAhead(cfg, s.tags.lines, s.data, s.fragments)
    && HitsWillFind(cfg, s.data, s.fragments)
    && RobIsMisses(cfg, s.rob.Contents(), s.fragments)
    && SlotsAgree(s.rob, s.extra)
    && |s.fragments| <= cap.fragments && |s.requests| <= cap.requests && |s.results| <= cap.results
  }

  function Initial(cfg: Config, rob: Ring<RobEntry>): TexState {
    TexState(Tags(seq(cfg.NumLines(), _ => INITIAL_BLOCK), 0), [], [], rob,
             seq(cfg.NumLines(), _ => None), [], map[])
  }

  lemma InitialInv(cfg: Config, cap: Capacity, rob: Ring<RobEntry>)
    requires cfg.Valid() && cfg.cacheType == NORMAL && rob.Ok() && rob.num == 0
    ensures TexInv(cfg, cap, Initial(cfg, rob))
  {
    assert Misses([]) == [];
  }

  // ---- the operations; None where an assertion of the original would fail ----

  function TexAccess(cfg: Config, cap: Capacity, s: TexState, mf: MemFetch, time: nat): Option<TexOutcome>
    requires Sized(cfg, s.tags) && s.rob.Ok()
  {
    if |s.fragments| == cap.fragments || |s.requests| == cap.requests || s.rob.Full() then
      Some(TexOutcome(s, RESERVATION_FAIL))
    else if mf.dataSize > cfg.lineSize then None
    else
      var block := cfg.BlockAddr(mf.addr);
      var r := AccessTags(cfg, s.tags, block, time, cfg.SectorOf(mf), mf.isWrite);
      var fragments := s.fragments + [Fragment(mf, r.idx, r.status == MISS)];
      if r.evicted.Some? then None
      else match r.status
        case MISS =>
          Some(TexOutcome(TexState(FillTags(cfg, r.tags, r.idx, cfg.SectorOf(mf), mf.bytes), fragments,
                                   s.requests + [mf], s.rob.Push(RobEntry(false, r.idx, mf, block)),
                                   s.data, s.results, s.extra[mf := s.rob.Slot(s.rob.num)]), MISS))
        case HIT => Some(TexOutcome(s.(tags := r.tags, fragments := fragments), HIT_RESERVED))
        case _ => None
  }

  // the first half of cycle(): one request leaves for the lower level
  function TexSend(s: TexState, memFull: bool): TexState {
    if s.requests == [] || memFull then s else s.(requests := s.requests[1..])
  }

  // the second half of cycle(): one fragment is reconciled with the data array
  function TexRetire(cfg: Config, cap: Capacity, s: TexState): Option<TexState>
    requires cfg.lineSize > 0 && s.rob.Ok()
  {
    if s.fragments == [] || |s.results| == cap.results then Some(s)
    else
      var e := s.fragments[0];
      var retired := s.(results := s.results + [e.request], fragments := s.fragments[1..]);
      if e.cacheIndex >= |s.data| then None
      else if !e.miss then
        if s.data[e.cacheIndex] == Some(cfg.BlockAddr(e.request.addr)) then Some(retired) else None
      else if s.rob.num == 0 then None
      else
        var r := s.rob.slots[s.rob.tail];
        if r.request != e.request then None
        else if !r.ready then Some(s)
        else if r.index != e.cacheIndex then None
        else Some(retired.(data := s.data[r.index := Some(r.blockAddr)], rob := s.rob.Pop()))
  }

  function TexFill(cfg: Config, s: TexState, mf: MemFetch): Option<TexState>
    requires cfg.lineSize > 0
  {
    if mf !in s.extra || s.rob.num == 0 || s.extra[mf] >= |s.rob.slots| then None
    else
      var slot := s.extra[mf];
      var r := s.rob.slots[slot];
      if r.ready || r.blockAddr != cfg.BlockAddr(mf.addr) then None
      else Some(s.(rob := s.rob.Put(slot, r.(ready := true)), extra := s.extra - {mf}))
  }

  function TexNext(s: TexState): Option<TexState> {
    if s.results == [] then None else Some(s.(results := s.results[1..]))
  }

  // ---- the source's assertions, as consequences of the invariant ----

  /** cycle() compares a miss fragment with the head of the reorder buffer. */
  lemma MissHeadIsRobHead(cfg: Config, cap: Capacity, s: TexState)
    requires TexInv(cfg, cap, s) && s.fragments != [] && s.fragments[0].miss
    ensures s.rob.num > 0
    ensures var (e, r) := (s.fragments[0], s.rob.Contents()[0]);
            && r == s.rob.slots[s.rob.tail]
            && r.request == e.request && r.index == e.cacheIndex && r.index < |s.data|
            && r.blockAddr == cfg.BlockAddr(e.request.addr)
  {
    assert Misses(s.fragments)[0] == s.fragments[0];
    assert Corresponds(cfg, s.rob.Contents()[0], Misses(s.fragments)[0]);
    s.rob.PopRemovesOldest();
  }

  /** cycle() finds the block of a hit fragment in the data array. */
  lemma HitHeadFindsItsBlock(cfg: Config, cap: Capacity, s: TexState)
    requires TexInv(cfg, cap, s) && s.fragments != [] && !s.fragments[0].miss
    ensures var e := s.fragments[0];
            e.cacheIndex < |s.data| && s.data[e.cacheIndex] == Some(cfg.BlockAddr(e.request.addr))
  {
    assert s.fragments[..0] == [];
    assert Replay(cfg, s.data, s.fragments[..0]) == s.data;
  }

  /** fill() finds a waiting entry of its own request in the slot it saved. */
  lemma {:induction false} FillFindsItsEntry(cfg: Config, cap: Capacity, s: TexState, mf: MemFetch)
    requires TexInv(cfg, cap, s) && mf in s.extra
    ensures var slot := s.extra[mf];
            && s.rob.num > 0 && slot < |s.rob.slots| && !s.rob.slots[slot].ready
            && s.rob.slots[slot].request == mf && s.rob.slots[slot].blockAddr == cfg.BlockAddr(mf.addr)
  {
    var slot := s.extra[mf];
    assert SlotIsWaiting(s.rob, mf, slot);
    s.rob.SlotPosition(slot);
    var k := s.rob.Position(slot);
    assert Corresponds(cfg, s.rob.Contents()[k], Misses(s.fragments)[k]);
  }

  // ---- preservation ----

  lemma {:induction false} ReplayAppends(cfg: Config, data: DataArray, fragments: seq<Fragment>, f: Fragment)
    requires cfg.lineSize > 0
    ensures Replay(cfg, data, fragments + [f]) == Place(cfg, Replay(cfg, data, fragments), f)
    decreases |fragments|
  {
    if fragments == [] {
      assert ([f])[1..] == [];
      assert fragments + [f] == [f];
    } else {
      assert (fragments + [f])[1..] == fragments[1..] + [f];
      ReplayAppends(cfg, Place(cfg, data, fragments[0]), fragments[1..], f);
    }
  }

  lemma {:induction false} MissesAppends(fragments: seq<Fragment>, f: Fragment)
    ensures Misses(fragments + [f]) == Misses(fragments) + (if f.miss then [f] else [])
  {
    if fragments == [] {
      assert fragments + [f] == [f];
      assert Misses([f]) == (if f.miss then [f] else []) + Misses([]);
    } else {
      var (head, rest) := (if fragments[0].miss then [fragments[0]] else [], fragments[1..]);
      assert Misses(fragments) == head + Misses(rest);
      assert Misses(fragments + [f]) == head + Misses(rest + [f]) by {
        assert (fragments + [f])[1..] == rest + [f];
      }
      hide Misses;
      MissesAppends(rest, f);
    }
  }

  lemma HitsWillFindAppend(cfg: Config, data: DataArray, fragments: seq<Fragment>, f: Fragment)
    requires cfg.lineSize > 0 && HitsWillFind(cfg, data, fragments) && f.cacheIndex < |data|
    requires !f.miss ==> Replay(cfg, data, fragments)[f.cacheIndex] == Some(cfg.BlockAddr(f.request.addr))
    ensures HitsWillFind(cfg, data, fragments + [f])
  {
    var all := fragments + [f];
    forall j | 0 <= j < |all|
      ensures all[j].cacheIndex < |data|
      ensures !all[j].miss ==>
                Replay(cfg, data, all[..j])[all[j].cacheIndex] == Some(cfg.BlockAddr(all[j].request.addr))
    {
      if j < |fragments| {
        assert all[..j] == fragments[..j];
        assert all[j] == fragments[j];
      } else {
        assert all[..j] == fragments;
      }
    }
  }

  lemma HitsWillFindPop(cfg: Config, data: DataArray, fragments: seq<Fragment>)
    requires cfg.lineSize > 0 && fragments != [] && HitsWillFind(cfg, data, fragments)
    ensures HitsWillFind(cfg, Place(cfg, data, fragments[0]), fragments[1..])
  {
    var rest := fragments[1..];
    var data' := Place(cfg, data, fragments[0]);
    forall j | 0 <= j < |rest|
      ensures rest[j].cacheIndex < |data'|
      ensures !rest[j].miss ==>
                Replay(cfg, data', rest[..j])[rest[j].cacheIndex] == Some(cfg.BlockAddr(rest[j].request.addr))
    {
      assert rest[j] == fragments[j + 1];
      assert fragments[..j + 1][1..] == rest[..j];
      assert fragments[..j + 1][0] == fragments[0];
    }
  }

  /** For a texture cache the tags answer HIT or MISS only, and afterwards the
      line named holds the block. */
  lemma TexTagsAccess(cfg: Config, tags: Tags, addr: nat, time: nat, isWrite: bool, bytes: set<nat>)
    requires Sized(cfg, tags) && PlainTags(tags.lines) && TimesBelowSentinel(tags.lines)
    requires cfg.cacheType == NORMAL && time < TIME_SENTINEL
    ensures var block := cfg.BlockAddr(addr);
            var r := AccessTags(cfg, tags, addr, time, 0, isWrite);
            var tags' := if r.status == MISS then FillTags(cfg, r.tags, r.idx, 0, bytes) else r.tags;
            && (r.status == HIT || r.status == MISS) && r.evicted.None?
            && Sized(cfg, tags') && PlainTags(tags'.lines) && TimesBelowSentinel(tags'.lines)
            && tags'.lines[r.idx].tag == block && tags'.lines[r.idx].sectors[0].status == VALID
            && (r.status == HIT ==> tags.lines[r.idx].tag == block && tags.lines[r.idx].sectors[0].status == VALID)
            && forall i :: 0 <= i < |tags.lines| && i != r.idx ==> tags'.lines[i] == tags.lines[i]
  {
    var p := ProbeTags(cfg, tags, addr, 0, isWrite);
    assert Plain(tags.lines[p.idx]);
    SetInRange(cfg, addr);
    var w := cfg.SetBase(addr);
    assert InSet(cfg, addr, w) && Plain(tags.lines[w]) && Eligible(cfg, tags.dirty, tags.lines[w]);
    ProbeFailsIffNoWay(cfg, tags, addr, 0, isWrite);
  }

  lemma AccessKeepsTags(cfg: Config, tags: Tags, tags': Tags, data: DataArray, fragments: seq<Fragment>,
                        f: Fragment, hit: bool)
    requires cfg.lineSize > 0 && |tags'.lines| == |tags.lines| && f.cacheIndex < |tags.lines|
    requires TagsAreAhead(cfg, tags.lines, data, fragments) && HitsWillFind(cfg, data, fragments)
    requires tags'.lines[f.cacheIndex].tag == cfg.BlockAddr(f.request.addr)
    requires tags'.lines[f.cacheIndex].sectors[0].status == VALID
    requires hit ==> tags.lines[f.cacheIndex].sectors[0].status == VALID
                     && tags.lines[f.cacheIndex].tag == cfg.BlockAddr(f.request.addr)
    requires f.miss == !hit
    requires forall i :: 0 <= i < |tags.lines| && i != f.cacheIndex ==> tags'.lines[i] == tags.lines[i]
    ensures TagsAreAhead(cfg, tags'.lines, data, fragments + [f]) && HitsWillFind(cfg, data, fragments + [f])
  {
    ReplayAppends(cfg, data, fragments, f);
    HitsWillFindAppend(cfg, data, fragments, f);
  }

  lemma AccessKeepsRob(cfg: Config, s: TexState, f: Fragment)
    requires cfg.lineSize > 0 && s.rob.Ok() && !s.rob.Full()
    requires RobIsMisses(cfg, s.rob.Contents(), s.fragments) && SlotsAgree(s.rob, s.extra)
    requires f.miss && f.request !in s.extra
    ensures var rob' := s.rob.Push(RobEntry(false, f.cacheIndex, f.request, cfg.BlockAddr(f.request.addr)));
            && rob'.Ok() && RobIsMisses(cfg, rob'.Contents(), s.fragments + [f])
            && SlotsAgree(rob', s.extra[f.request := s.rob.Slot(s.rob.num)])
  {
    s.rob.PushAppends(RobEntry(false, f.cacheIndex, f.request, cfg.BlockAddr(f.request.addr)));
    MissesAppends(s.fragments, f);
  }

  /** The requests the fragments stand for, oldest first. */
  function Requests(fragments: seq<Fragment>): (r: seq<MemFetch>)
    ensures |r| == |fragments|
  {
    seq(|fragments|, i requires 0 <= i < |fragments| => fragments[i].request)
  }

  lemma RequestsAppends(fragments: seq<Fragment>, f: Fragment)
    ensures Requests(fragments + [f]) == Requests(fragments) + [f.request]
  {
  }

  lemma RequestsPops(fragments: seq<Fragment>)
    requires fragments != []
    ensures Requests(fragments) == [fragments[0].request] + Requests(fragments[1..])
  {
  }

  /** An accepted access keeps the invariant; the tags never answer
      RESERVATION_FAIL or HIT_RESERVED, and nothing is written back. */
  lemma AccessKeepsInv(cfg: Config, cap: Capacity, s: TexState, mf: MemFetch, time: nat)
    requires TexInv(cfg, cap, s) && mf !in s.extra && time < TIME_SENTINEL && mf.dataSize <= cfg.lineSize
    ensures TexAccess(cfg, cap, s, mf, time).Some?
    ensures var o := TexAccess(cfg, cap, s, mf, time).value;
            && TexInv(cfg, cap, o.s) && (o.status == RESERVATION_FAIL ==> o.s == s)
            && (o.status != RESERVATION_FAIL ==>
                  o.s.results + Requests(o.s.fragments) == s.results + Requests(s.fragments) + [mf])
  {
    hide ProbeTags;
    var block := cfg.BlockAddr(mf.addr);
    BlockAddrTwice(cfg, mf.addr);
    TexTagsAccess(cfg, s.tags, block, time, mf.isWrite, mf.bytes);
    var o := TexAccess(cfg, cap, s, mf, time).value;
    if o.status != RESERVATION_FAIL {
      var r := AccessTags(cfg, s.tags, block, time, 0, mf.isWrite);
      var f := Fragment(mf, r.idx, r.status == MISS);
      AccessKeepsTags(cfg, s.tags, o.s.tags, s.data, s.fragments, f, r.status == HIT);
      if f.miss {
        AccessKeepsRob(cfg, s, f);
      } else {
        MissesAppends(s.fragments, f);
      }
      RequestsAppends(s.fragments, f);
    }
  }

  lemma InvGivesShape(cfg: Config, cap: Capacity, s: TexState)
    requires TexInv(cfg, cap, s)
    ensures Sized(cfg, s.tags) && s.rob.Ok() && cfg.lineSize > 0
  {
  }

  lemma InvGivesTimes(cfg: Config, cap: Capacity, s: TexState)
    requires TexInv(cfg, cap, s)
    ensures TimesBelowSentinel(s.tags.lines)
  {
  }

  lemma SendKeepsInv(cfg: Config, cap: Capacity, s: TexState, memFull: bool)
    requires TexInv(cfg, cap, s)
    ensures TexInv(cfg, cap, TexSend(s, memFull))
  {
  }

  lemma PopKeepsSlots(rob: Ring<RobEntry>, extra: map<MemFetch, nat>)
    requires rob.Ok() && rob.num > 0 && SlotsAgree(rob, extra) && rob.Contents()[0].ready
    ensures rob.Pop().Ok() && SlotsAgree(rob.Pop(), extra)
  {
    rob.PopRemovesOldest();
  }

  lemma RetireKeepsInv(cfg: Config, cap: Capacity, s: TexState)
    requires TexInv(cfg, cap, s)
    ensures TexRetire(cfg, cap, s).Some?
    ensures var s' := TexRetire(cfg, cap, s).value;
            TexInv(cfg, cap, s') && s'.results + Requests(s'.fragments) == s.results + Requests(s.fragments)
  {
    if s.fragments != [] {
      if s.fragments[0].miss {
        MissHeadIsRobHead(cfg, cap, s);
      } else {
        HitHeadFindsItsBlock(cfg, cap, s);
      }
    }
    var s' := TexRetire(cfg, cap, s).value;
    if s'.fragments != s.fragments {
      HitsWillFindPop(cfg, s.data, s.fragments);
      RequestsPops(s.fragments);
      if s.fragments[0].miss {
        PopKeepsSlots(s.rob, s.extra);
        s.rob.PopRemovesOldest();
        assert Misses(s.fragments) == [s.fragments[0]] + Misses(s'.fragments);
      }
    }
  }

  lemma FillKeepsSlots(rob: Ring<RobEntry>, extra: map<MemFetch, nat>, mf: MemFetch)
    requires rob.Ok() && SlotsAgree(rob, extra) && mf in extra && SlotIsWaiting(rob, mf, extra[mf])
    ensures var rob' := rob.Put(extra[mf], rob.slots[extra[mf]].(ready := true));
            rob'.Ok() && SlotsAgree(rob', extra - {mf})
  {
    var slot := extra[mf];
    var rob' := rob.Put(slot, rob.slots[slot].(ready := true));
    forall k: nat | rob'.Live(k) && !rob'.slots[k].ready
      ensures rob'.slots[k].request in extra - {mf} && extra[rob'.slots[k].request] == k
    {
      assert k != slot && rob.Live(k);
    }
  }

  lemma FillKeepsInv(cfg: Config, cap: Capacity, s: TexState, mf: MemFetch)
    requires TexInv(cfg, cap, s) && mf in s.extra
    ensures TexFill(cfg, s, mf).Some? && TexInv(cfg, cap, TexFill(cfg, s, mf).value)
  {
    FillFindsItsEntry(cfg, cap, s, mf);
    var slot := s.extra[mf];
    assert SlotIsWaiting(s.rob, mf, slot);
    s.rob.PutReplaces(slot, s.rob.slots[slot].(ready := true));
    s.rob.SlotPosition(slot);
    FillKeepsSlots(s.rob, s.extra, mf);
  }
}
