/** The class tex_cache: its methods compute the operations of TexModel, and
    the assertions of the original stand where the original has them. */
module TexCaches {
  import opened CacheTypes
  import opened Options
  import opened TagArrays
  import opened CircularFifo
  import opened TexModel

  method EmptyData(n: nat) returns (data: array<Option<nat>>)
    ensures fresh(data) && data[..] == seq(n, _ => None)
  {
    data := new Option<nat>[n](_ => None);
  }

  method EmptyFifos(fragments: nat, requests: nat, results: nat)
    returns (fragmentFifo: Fifo<Fragment>, requestFifo: Fifo<MemFetch>, resultFifo: Fifo<MemFetch>)
    ensures fragmentFifo.Valid() && fragmentFifo.size == fragments && fragmentFifo.State().Contents() == []
    ensures requestFifo.Valid() && requestFifo.size == requests && requestFifo.State().Contents() == []
    ensures resultFifo.Valid() && resultFifo.size == results && resultFifo.State().Contents() == []
    ensures requestFifo != resultFifo && requestFifo.data != resultFifo.data
  {
    hide Ring.Contents, Ring.Slot, Ring.Ok, Fifo.Valid, Fifo.State;
    fragmentFifo := new Fifo<Fragment>(fragments);
    requestFifo := new Fifo<MemFetch>(requests);
    resultFifo := new Fifo<MemFetch>(results);
  }

  class TexCache {
    const cfg: Config
    const cap: Capacity
    const tags: TagArray
    const fragmentFifo: Fifo<Fragment>
    const requestFifo: Fifo<MemFetch>
    const rob: Fifo<RobEntry>
    const data: array<Option<nat>>
    const resultFifo: Fifo<MemFetch>
    var extra: map<MemFetch, nat>

    ghost predicate Valid()
      reads this, tags, tags.lines, fragmentFifo, fragmentFifo.data, requestFifo, requestFifo.data,
            rob, rob.data, resultFifo, resultFifo.data
    {
      && requestFifo != resultFifo && requestFifo.data != resultFifo.data
      && tags.Valid() && tags.cfg == cfg
      && fragmentFifo.Valid() && requestFifo.Valid() && rob.Valid() && resultFifo.Valid()
      && cap == Capacity(fragmentFifo.size, requestFifo.size, resultFifo.size)
    }

    ghost function State(): TexState
      requires Valid()
      reads this, tags, tags.lines, fragmentFifo, fragmentFifo.data, requestFifo, requestFifo.data,
            rob, rob.data, data, resultFifo, resultFifo.data
    {
      TexState(tags.State(), fragmentFifo.State().Contents(), requestFifo.State().Contents(), rob.State(),
               data[..], resultFifo.State().Contents(), extra)
    }

    constructor (cfg: Config, fragments: nat, requests: nat, robEntries: nat, results: nat)
      requires cfg.Valid() && cfg.cacheType == NORMAL
      ensures Valid() && this.cfg == cfg && cap == Capacity(fragments, requests, results)
      ensures State() == Initial(cfg, rob.State())
    {
      var blocks := EmptyData(cfg.NumLines());
      var pending, sending, done := EmptyFifos(fragments, requests, results);
      this.cfg := cfg;
      cap := Capacity(fragments, requests, results);
      tags := new TagArray(cfg);
      rob := new Fifo<RobEntry>(robEntries);
      data := blocks;
      fragmentFifo, requestFifo, resultFifo := pending, sending, done;
      extra := map[];
    }

    method Access(mf: MemFetch, time: nat) returns (status: RequestStatus)
      requires Valid() && TexInv(cfg, cap, State())
      requires mf !in extra && time < TIME_SENTINEL && mf.dataSize <= cfg.lineSize
      modifies this, tags, tags.lines, fragmentFifo, fragmentFifo.data, requestFifo, requestFifo.data, rob, rob.data
      ensures Valid() && TexInv(cfg, cap, State())
      ensures TexAccess(cfg, cap, old(State()), mf, time) == Some(TexOutcome(State(), status))
    {
      hide TexInv, AccessTags;
      ghost var s := State();
      InvGivesShape(cfg, cap, s);
      InvGivesTimes(cfg, cap, s);
      AccessKeepsInv(cfg, cap, s, mf, time);
      if fragmentFifo.Full() || requestFifo.Full() || rob.Full() {
        return RESERVATION_FAIL;
      }
      assert mf.dataSize <= cfg.lineSize;
      var block := cfg.BlockAddr(mf.addr);
      var tagStatus, idx, evicted := tags.Access(block, time, cfg.SectorOf(mf), mf.isWrite);
      assert tagStatus != RESERVATION_FAIL && tagStatus != HIT_RESERVED && evicted.None?;
      fragmentFifo.State().PushAppends(Fragment(mf, idx, tagStatus == MISS));
      var _ := fragmentFifo.Push(Fragment(mf, idx, tagStatus == MISS));
      if tagStatus == MISS {
        QueueMiss(mf, idx, block);
        status := MISS;
      } else {
        status := HIT_RESERVED;
      }
    }

    // the part of access() that sends a request for a missing block
    method QueueMiss(mf: MemFetch, idx: nat, block: nat)
      requires Valid() && !rob.Full() && !requestFifo.Full() && idx < |tags.lines|
      modifies this, tags, tags.lines, requestFifo, requestFifo.data, rob, rob.data
      ensures Valid()
      ensures var (s, s') := (old(State()), State());
              s' == s.(tags := FillTags(cfg, s.tags, idx, cfg.SectorOf(mf), mf.bytes), requests := s.requests + [mf],
                       rob := s.rob.Push(RobEntry(false, idx, mf, block)),
                       extra := s.extra[mf := s.rob.Slot(s.rob.num)])
    {
      hide TagArray.Valid, TagArray.Contents, Ring.Contents, FillTags, Ring.Push, Ring.Slot, Config.SectorOf;
      var slot := rob.Push(RobEntry(false, idx, mf, block));
      extra := extra[mf := slot];
      tags.Fill(idx, cfg.SectorOf(mf), mf.bytes);
      requestFifo.State().PushAppends(mf);
      var _ := requestFifo.Push(mf);
    }

    method Cycle(memFull: bool) returns (sent: Option<MemFetch>)
      requires Valid() && TexInv(cfg, cap, State())
      modifies fragmentFifo, requestFifo, rob, data, resultFifo, resultFifo.data
      ensures Valid() && TexInv(cfg, cap, State())
      ensures TexRetire(cfg, cap, TexSend(old(State()), memFull)) == Some(State())
      ensures sent == if old(State()).requests == [] || memFull then None else Some(old(State()).requests[0])
    {
      hide TexInv, TexRetire;
      ghost var s := State();
      SendKeepsInv(cfg, cap, s, memFull);
      ghost var s1 := TexSend(s, memFull);
      RetireKeepsInv(cfg, cap, s1);
      sent := Send(memFull);
      Retire();
    }

    method Send(memFull: bool) returns (sent: Option<MemFetch>)
      requires Valid()
      modifies requestFifo
      ensures Valid() && State() == TexSend(old(State()), memFull)
      ensures sent == if old(State()).requests == [] || memFull then None else Some(old(State()).requests[0])
    {
      sent := None;
      if !requestFifo.Empty() {
        if !memFull {
          requestFifo.State().PopRemovesOldest();
          var mf := requestFifo.Pop();
          sent := Some(mf);
        }
      }
    }

    method Retire()
      requires Valid() && TexInv(cfg, cap, State())
      modifies fragmentFifo, rob, data, resultFifo, resultFifo.data
      ensures Valid() && TexRetire(cfg, cap, old(State())) == Some(State())
    {
      hide TexInv;
      ghost var s := State();
      InvGivesShape(cfg, cap, s);
      if !fragmentFifo.Empty() && !resultFifo.Full() {
        fragmentFifo.State().PopRemovesOldest();
        if fragmentFifo.Peek().miss {
          RetireMiss();
        } else {
          RetireHit();
        }
      }
    }

    method RetireMiss()
      requires Valid() && TexInv(cfg, cap, State())
      requires !fragmentFifo.Empty() && !resultFifo.Full() && State().fragments[0].miss
      modifies fragmentFifo, rob, data, resultFifo, resultFifo.data
      ensures Valid() && TexRetire(cfg, cap, old(State())) == Some(State())
    {
      hide TexInv, TagArray.Valid, TagArray.Contents, Ring.Contents;
      ghost var s := State();
      InvGivesShape(cfg, cap, s);
      fragmentFifo.State().PopRemovesOldest();
      MissHeadIsRobHead(cfg, cap, s);
      var e := fragmentFifo.Peek();
      var r := rob.Peek();
      assert r.request == e.request;
      if r.ready {
        assert r.index == e.cacheIndex;
        data[r.index] := Some(r.blockAddr);
        Deliver(e.request);
        var _ := rob.Pop();
      }
    }

    method RetireHit()
      requires Valid() && TexInv(cfg, cap, State())
      requires !fragmentFifo.Empty() && !resultFifo.Full() && !State().fragments[0].miss
      modifies fragmentFifo, resultFifo, resultFifo.data
      ensures Valid() && TexRetire(cfg, cap, old(State())) == Some(State())
    {
      hide TexInv, TagArray.Valid, TagArray.Contents, Ring.Contents;
      ghost var s := State();
      InvGivesShape(cfg, cap, s);
      fragmentFifo.State().PopRemovesOldest();
      HitHeadFindsItsBlock(cfg, cap, s);
      var e := fragmentFifo.Peek();
      assert data[e.cacheIndex] == Some(cfg.BlockAddr(e.request.addr));
      Deliver(e.request);
    }

    // the request of the oldest fragment becomes the newest result
    method Deliver(mf: MemFetch)
      requires Valid() && !fragmentFifo.Empty() && !resultFifo.Full()
      modifies fragmentFifo, resultFifo, resultFifo.data
      ensures Valid()
      ensures State() == old(State()).(results := old(State()).results + [mf], fragments := old(State()).fragments[1..])
    {
      hide TagArray.Valid, TagArray.Contents, Ring.Contents;
      resultFifo.State().PushAppends(mf);
      fragmentFifo.State().PopRemovesOldest();
      var _ := resultFifo.Push(mf);
      var _ := fragmentFifo.Pop();
    }

    method Fill(mf: MemFetch)
      requires Valid() && TexInv(cfg, cap, State()) && mf in extra
      modifies this, rob.data
      ensures Valid() && TexInv(cfg, cap, State())
      ensures TexFill(cfg, old(State()), mf) == Some(State())
    {
      ghost var s := State();
      FillFindsItsEntry(cfg, cap, s, mf);
      FillKeepsInv(cfg, cap, s, mf);
      var slot := extra[mf];
      assert !rob.Empty() && !rob.data[slot].ready;
      rob.data[slot] := rob.data[slot].(ready := true);
      assert rob.data[slot].blockAddr == cfg.BlockAddr(mf.addr);
      extra := extra - {mf};
    }

    method NextAccess() returns (mf: MemFetch)
      requires Valid() && TexInv(cfg, cap, State()) && !resultFifo.Empty()
      modifies resultFifo
      ensures Valid() && TexInv(cfg, cap, State())
      ensures TexNext(old(State())) == Some(State()) && mf == old(State()).results[0]
    {
      resultFifo.State().PopRemovesOldest();
      mf := resultFifo.Pop();
    }
  }
}
