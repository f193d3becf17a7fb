/** Where the bytes of a write-back come from: in a sectored cache each was written to, or
    fetched for, the block that is written back; a cache of whole lines also names bytes of
    the blocks its line held before. */
module CacheProvenance {
  import opened CacheTypes
  import opened TagArrays
  import opened CacheModel
  import opened CacheAdmission
  import opened CacheOperations
  import opened CacheCore
  import opened CacheEffects
  import opened CacheDurability
  import opened CacheTraffic
  import opened CacheRuns
  import opened CacheGuarantees

  // ---- the events that name a byte of a block ----

  // an accepted write of the byte, or the fill of a fetch that asked for it
  ghost predicate Names(cfg: Config, sys: CacheSystem, e: CacheEvent, block: nat, k: nat)
    requires cfg.lineSize > 0
  {
    match e
    case Access(mf, time) => AcceptsWrite(cfg, sys, mf, time) && cfg.BlockAddr(mf.addr) == block && k in mf.bytes
    case Fill(mf) => cfg.BlockAddr(mf.addr) == block && k in mf.bytes
    case _ => false
  }

  ghost predicate NamedBy(cfg: Config, sys: CacheSystem, events: seq<CacheEvent>, block: nat, k: nat)
    requires cfg.lineSize > 0
    decreases |events|
  {
    events != [] &&
    (Names(cfg, sys, events[0], block, k) ||
     match Step(cfg, sys, events[0])
     case None => false
     case Some(next) => NamedBy(cfg, next, events[1..], block, k))
  }

  // the blocks and bytes known so far
  type Known = iset<(nat, nat)>

  ghost function After(cfg: Config, sys: CacheSystem, e: CacheEvent, known: Known): Known
    requires cfg.lineSize > 0
  {
    iset x: (nat, nat) | x in known || Names(cfg, sys, e, x.0, x.1)
  }

  ghost predicate LineKnown(b: Block, known: Known) { forall k :: k in b.dirtyBytes ==> (b.blockAddr, k) in known }

  ghost predicate LinesKnown(lines: seq<Block>, known: Known) {
    forall i :: 0 <= i < |lines| ==> LineKnown(lines[i], known)
  }

  ghost predicate PacketKnown(p: Packet, known: Known) {
    p.WriteBackPacket? ==> forall k :: k in p.evicted.bytes ==> (p.evicted.blockAddr, k) in known
  }

  ghost predicate PacketsKnown(q: seq<Packet>, known: Known) { forall p :: p in q ==> PacketKnown(p, known) }

  // ---- lines ----

  // the bytes an accepted request adds to its line
  function AddedBytes(cfg: Config, mf: MemFetch, status: RequestStatus): set<nat> {
    if mf.isWrite && (status == HIT || Allocates(cfg, mf)) then mf.bytes else {}
  }

  /** In a sectored cache a line that is taken starts without dirty bytes; a write adds
      its own. */
  lemma AccessedBytes(cfg: Config, b: Block, mf: MemFetch, status: RequestStatus, time: nat)
    requires cfg.lineSize > 0 && cfg.cacheType == SECTOR
    ensures var w := AccessedLine(cfg, b, mf, status, time);
      && w.blockAddr == (if status == MISS && Allocates(cfg, mf) then cfg.BlockAddr(mf.addr) else b.blockAddr)
      && w.dirtyBytes <= (if status == MISS && Allocates(cfg, mf) then {} else b.dirtyBytes)
                         + AddedBytes(cfg, mf, status)
  {
    hide LazyBlock, UpdateReadable;
    LazyBlockIsWritten(cfg, Took(cfg, b, status, mf, time), mf, status);
    UpdateReadableOnly(cfg, Written(cfg, b.Touch(time), mf), mf);
  }

  lemma FilledBytes(cfg: Config, b: Block, r: MemFetch)
    ensures var w := b.Fill(cfg.cacheType, cfg.SectorOf(r), r.bytes);
      w.blockAddr == b.blockAddr && w.dirtyBytes <= b.dirtyBytes + r.bytes
  {
  }

  // ---- steps ----

  lemma KnownGrows(cfg: Config, sys: CacheSystem, e: CacheEvent, known: Known, q: seq<Packet>)
    requires cfg.lineSize > 0 && LinesKnown(sys.s.tags.lines, known) && PacketsKnown(q, known)
    ensures LinesKnown(sys.s.tags.lines, After(cfg, sys, e, known)) && PacketsKnown(q, After(cfg, sys, e, known))
  {
    hide Names;
    forall i | 0 <= i < |sys.s.tags.lines|
      ensures LineKnown(sys.s.tags.lines[i], After(cfg, sys, e, known))
    {
      assert LineKnown(sys.s.tags.lines[i], known);
    }
    forall p | p in q
      ensures PacketKnown(p, After(cfg, sys, e, known))
    {
      assert PacketKnown(p, known);
    }
  }

  lemma PacketsJoin(q: seq<Packet>, r: seq<Packet>, known: Known)
    requires PacketsKnown(q, known) && PacketsKnown(r, known)
    ensures PacketsKnown(q + r, known)
  {
  }

  lemma AccessKeepsKnown(cfg: Config, sys: CacheSystem, mf: MemFetch, time: nat, known: Known)
    requires SystemInv(cfg, sys) && cfg.lineSize > 0 && cfg.cacheType == SECTOR && cfg.writePolicy != READ_ONLY
    requires LinesKnown(sys.s.tags.lines, known) && Step(cfg, sys, Access(mf, time)).Some?
    ensures var (next, known') := (Step(cfg, sys, Access(mf, time)).value, After(cfg, sys, Access(mf, time), known));
      LinesKnown(next.s.tags.lines, known') && PacketsKnown(Added(sys.s, next.s), known')
  {
    hide CoreInv, CacheAccess, EntriesInOrder, Reads, AccessedLine, AccessPackets, ProbeFor, LineKnown, Owed, Recorded;
    var (s, next, e) := (sys.s, Step(cfg, sys, Access(mf, time)).value, Access(mf, time));
    CoreIsSized(cfg, s);
    KnownGrows(cfg, sys, e, known, []);
    if CacheAccess(cfg, s, mf, time).value.status == RESERVATION_FAIL {
      RejectionHasNoEffect(cfg, s, mf, time);
    } else {
      AcceptedEffect(cfg, s, mf, time);
      AcceptedLineIsKnown(cfg, sys, mf, time, known);
      AcceptedPacketsAreKnown(cfg, sys, mf, time, known);
    }
  }

  lemma AcceptedLineIsKnown(cfg: Config, sys: CacheSystem, mf: MemFetch, time: nat, known: Known)
    requires Sized(cfg, sys.s.tags) && AllShaped(cfg, sys.s.tags.lines) && cfg.cacheType == SECTOR
    requires LinesKnown(sys.s.tags.lines, known) && CacheAccess(cfg, sys.s, mf, time).Some?
    requires CacheAccess(cfg, sys.s, mf, time).value.status != RESERVATION_FAIL
    ensures var p := ProbeFor(cfg, sys.s, mf);
      LineKnown(AccessedLine(cfg, sys.s.tags.lines[p.idx], mf, p.status, time),
                After(cfg, sys, Access(mf, time), known))
  {
    hide CacheAccess, AccessedLine, ProbeFor, Config.BlockAddr, Allocates;
    var p := ProbeFor(cfg, sys.s, mf);
    var b := sys.s.tags.lines[p.idx];
    ProbeNames(cfg, sys.s, mf);
    AccessedBytes(cfg, b, mf, p.status, time);
    assert LineKnown(b, known) && Shaped(cfg, b);
    if mf.isWrite {
      AcceptedIsFound(cfg, sys.s, mf, time);
      assert p.status == RESERVATION_FAIL ==> !Allocates(cfg, mf) by { NoneAllocates(cfg, mf); }
    }
    var (w, known') := (AccessedLine(cfg, b, mf, p.status, time), After(cfg, sys, Access(mf, time), known));
    forall k | k in w.dirtyBytes
      ensures (w.blockAddr, k) in known'
    {
      assert k in b.dirtyBytes ==> (b.blockAddr, k) in known;
      if k in AddedBytes(cfg, mf, p.status) {
        assert w.blockAddr == cfg.BlockAddr(mf.addr);
        assert Names(cfg, sys, Access(mf, time), w.blockAddr, k);
      }
    }
  }

  lemma NoneAllocates(cfg: Config, mf: MemFetch)
    requires mf.isWrite
    ensures cfg.writeAllocate == NO_WRITE_ALLOCATE ==> !Allocates(cfg, mf)
  {
  }

  lemma AcceptedPacketsAreKnown(cfg: Config, sys: CacheSystem, mf: MemFetch, time: nat, known: Known)
    requires Sized(cfg, sys.s.tags) && LinesKnown(sys.s.tags.lines, known)
    ensures PacketsKnown(AccessPackets(cfg, sys.s, mf, ProbeFor(cfg, sys.s, mf)),
                         After(cfg, sys, Access(mf, time), known))
  {
    hide ProbeFor, AccessPackets, FetchPackets, SendsWrite, Names;
    var p := ProbeFor(cfg, sys.s, mf);
    PacketsAre(cfg, sys.s, mf, p);
    assert LineKnown(sys.s.tags.lines[p.idx], known);
  }

  lemma FillKeepsKnown(cfg: Config, sys: CacheSystem, mf: MemFetch, known: Known)
    requires SystemInv(cfg, sys) && cfg.lineSize > 0 && LinesKnown(sys.s.tags.lines, known)
    requires Step(cfg, sys, Fill(mf)).Some?
    ensures LinesKnown(Step(cfg, sys, Fill(mf)).value.s.tags.lines, After(cfg, sys, Fill(mf), known))
  {
    hide CoreInv, EntriesInOrder, Reads, Config.BlockAddr, Block.Fill;
    var (s, known') := (sys.s, After(cfg, sys, Fill(mf), known));
    KnownGrows(cfg, sys, Fill(mf), known, []);
    FilledIsRecorded(cfg, s, mf);
    FillFindsItsPin(cfg, s, mf);
    var b := s.tags.lines[s.extra[mf].cacheIndex];
    FilledBytes(cfg, b, mf);
    var w := b.Fill(cfg.cacheType, cfg.SectorOf(mf), mf.bytes);
    forall k | k in w.dirtyBytes
      ensures (w.blockAddr, k) in known'
    {
      assert k in b.dirtyBytes ==> (b.blockAddr, k) in known';
      assert k in mf.bytes ==> Names(cfg, sys, Fill(mf), b.blockAddr, k);
    }
  }

  lemma NextKeepsKnown(s: CacheState, known: Known)
    requires CacheNext(s).Some? && LinesKnown(s.tags.lines, known)
    ensures LinesKnown(CacheNext(s).value.s.tags.lines, known)
  {
  }

  lemma StepKeepsKnown(cfg: Config, sys: CacheSystem, e: CacheEvent, known: Known)
    requires SystemInv(cfg, sys) && cfg.lineSize > 0 && cfg.cacheType == SECTOR && cfg.writePolicy != READ_ONLY
    requires LinesKnown(sys.s.tags.lines, known) && PacketsKnown(sys.queued, known) && Step(cfg, sys, e).Some?
    ensures var (next, known') := (Step(cfg, sys, e).value, After(cfg, sys, e, known));
      LinesKnown(next.s.tags.lines, known') && PacketsKnown(next.queued, known')
  {
    hide SystemInv, Step, LineKnown, PacketKnown, Names, CacheNext, CacheFill, CacheAccess, Sized;
    KnownGrows(cfg, sys, e, known, sys.queued);
    QueuedIs(cfg, sys, e);
    StepIs(cfg, sys, e);
    match e {
      case Access(mf, time) =>
        AccessKeepsKnown(cfg, sys, mf, time, known);
        PacketsJoin(sys.queued, Added(sys.s, Step(cfg, sys, e).value.s), After(cfg, sys, e, known));
      case Cycle(memFull) =>
      case Fill(mf) => FillKeepsKnown(cfg, sys, mf, known);
      case Next => NextKeepsKnown(sys.s, After(cfg, sys, e, known));
    }
  }

  // ---- runs ----

  lemma {:induction false} RunKeepsKnown(cfg: Config, sys: CacheSystem, events: seq<CacheEvent>, known: Known,
                                         p: Packet, k: nat)
    requires SystemInv(cfg, sys) && cfg.lineSize > 0 && cfg.cacheType == SECTOR && cfg.writePolicy != READ_ONLY
    requires LegalRun(cfg, sys, events) && Run(cfg, sys, events).Some?
    requires LinesKnown(sys.s.tags.lines, known) && PacketsKnown(sys.queued, known)
    requires p in Run(cfg, sys, events).value.queued && p.WriteBackPacket? && k in p.evicted.bytes
    ensures (p.evicted.blockAddr, k) in known || NamedBy(cfg, sys, events, p.evicted.blockAddr, k)
    decreases |events|
  {
    hide SystemInv, Step, Legal, Impossible, LinesKnown, Names;
    if events == [] {
      assert PacketKnown(p, known);
    } else {
      StepKeepsInv(cfg, sys, events[0]);
      StepKeepsKnown(cfg, sys, events[0], known);
      var next := Step(cfg, sys, events[0]).value;
      RunKeepsKnown(cfg, next, events[1..], After(cfg, sys, events[0], known), p, k);
    }
  }

  /** Over any run of a sectored cache, under every policy, a write-back names a byte only
      if an accepted write of that byte to that block, or the fill of a fetch that asked
      for it, happened before. */
  lemma WriteBacksNameWrittenBytes(cfg: Config, events: seq<CacheEvent>, p: Packet, k: nat)
    requires cfg.Valid() && cfg.cacheType == SECTOR && cfg.writePolicy != READ_ONLY
    requires LegalRun(cfg, Start(cfg), events) && Run(cfg, Start(cfg), events).Some?
    requires p in Run(cfg, Start(cfg), events).value.queued && p.WriteBackPacket? && k in p.evicted.bytes
    ensures NamedBy(cfg, Start(cfg), events, p.evicted.blockAddr, k)
  {
    hide SystemInv, NamedBy, Run, LegalRun;
    StartInv(cfg);
    RunKeepsKnown(cfg, Start(cfg), events, iset{}, p, k);
  }
}
