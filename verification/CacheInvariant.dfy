/** What ties lines, MSHR entries, saved line indices and pins together in every
    reachable state, and how a read request enters that picture. */
module CacheInvariant {
  import opened CacheTypes
  import opened TagArrays
  import opened CacheModel
  import opened CacheLines
  import opened CacheAdmission

  // ---- pins ----

  function PinnedAt(pending: map<MemFetch, nat>, i: nat): set<MemFetch> {
    set mf | mf in pending && pending[mf] == i
  }

  // a line's pin count is the number of responses that still need it
  ghost predicate PinsExact(lines: seq<Block>, pending: map<MemFetch, nat>) {
    && (forall mf :: mf in pending ==> pending[mf] < |lines|)
    && forall i :: 0 <= i < |lines| ==> lines[i].pins == |PinnedAt(pending, i)|
  }

  // each of those lines still holds the block of the request
  ghost predicate PinsHold(cfg: Config, lines: seq<Block>, pending: map<MemFetch, nat>)
    requires cfg.lineSize > 0
  {
    forall mf :: mf in pending ==> pending[mf] < |lines| && WellFormed(cfg, mf)
                                   && Holds(lines[pending[mf]], cfg.BlockAddr(mf.addr))
  }

  // ---- MSHR entries ----

  // every entry lists pending reads of its own address; each entry not yet
  // marked ready has exactly one saved record, that of its first request
  ghost predicate MshrsOk(cfg: Config, mshr: MshrTable, ready: seq<nat>, extra: map<MemFetch, Extra>,
                          pending: map<MemFetch, nat>)
    requires cfg.lineSize > 0
  {
    && (forall a :: a in mshr ==> mshr[a] != [] && (a in ready || mshr[a][0] in extra))
    && (forall a :: a in mshr ==> forall k :: 0 <= k < |mshr[a]| ==> IsMember(cfg, mshr[a][k], a, pending))
    && (forall mf :: mf in extra ==> OwnsEntry(cfg, mshr, ready, mf, extra[mf], pending))
    && Distinct(ready) && forall a :: a in ready ==> a in mshr
  }

  ghost predicate IsMember(cfg: Config, mf: MemFetch, a: nat, pending: map<MemFetch, nat>)
    requires cfg.lineSize > 0
  {
    mf in pending && cfg.MshrAddr(mf.addr) == a && !mf.isWrite
  }

  ghost predicate OwnsEntry(cfg: Config, mshr: MshrTable, ready: seq<nat>, mf: MemFetch, e: Extra,
                            pending: map<MemFetch, nat>)
    requires cfg.lineSize > 0
  {
    && e.mshrAddr == cfg.MshrAddr(mf.addr) && e.mshrAddr in mshr && e.mshrAddr !in ready
    && mshr[e.mshrAddr] != [] && mshr[e.mshrAddr][0] == mf
    && mf in pending && e.cacheIndex == pending[mf]
  }

  // ---- sectors ----

  // a fetch for this sector is under way; data written meanwhile survives the fill
  ghost predicate Awaiting(s: Sector) {
    (s.status == RESERVED || (s.status == MODIFIED && s.modifiedOnFill)) && (s.readable || s.readableOnFill)
  }

  // the data of this sector is here, so that no read of it goes to the MSHRs
  ghost predicate Filled(s: Sector) {
    (s.status == VALID || s.status == MODIFIED) && s.readable
  }

  ghost predicate EntrySector(cfg: Config, lines: seq<Block>, mshr: MshrTable, ready: seq<nat>,
                              pending: map<MemFetch, nat>, a: nat)
    requires a in mshr
  {
    && mshr[a] != [] && mshr[a][0] in pending && pending[mshr[a][0]] < |lines|
    && var s := lines[pending[mshr[a][0]]].sectors[cfg.SectorOf(mshr[a][0])];
       if a in ready then Filled(s) else Awaiting(s)
  }

  ghost predicate ReservedIsOwned(lines: seq<Block>, mshr: MshrTable, ready: seq<nat>, i: nat, sec: SectorId)
    requires i < |lines|
  {
    lines[i].sectors[sec].status == RESERVED
    ==> AtomAddr(lines[i].tag, sec) in mshr && AtomAddr(lines[i].tag, sec) !in ready
  }

  ghost predicate SectorsOk(cfg: Config, lines: seq<Block>, mshr: MshrTable, ready: seq<nat>,
                            pending: map<MemFetch, nat>) {
    && (forall a :: a in mshr ==> EntrySector(cfg, lines, mshr, ready, pending, a))
    && forall i: nat, sec: SectorId :: i < |lines| ==> ReservedIsOwned(lines, mshr, ready, i, sec)
  }

  // ---- accounting ----

  function Waiting(q: seq<HitEntry>): (r: seq<MemFetch>)
    ensures |r| == |q|
  {
    seq(|q|, i requires 0 <= i < |q| => q[i].mf)
  }

  // how often a request is queued for return
  ghost function Places(cfg: Config, s: CacheState, mf: MemFetch): nat
    requires cfg.lineSize > 0
  {
    multiset(Waiting(s.hitQueue))[mf] + multiset(s.readyQueue)[mf]
    + (if cfg.MshrAddr(mf.addr) in s.mshr then multiset(s.mshr[cfg.MshrAddr(mf.addr)])[mf] else 0)
  }

  // the keys of m_pending_response_indices are the disjoint union of the hit
  // queue, the ready queue and the MSHR lists
  ghost predicate Accounted(cfg: Config, s: CacheState)
    requires cfg.lineSize > 0
  {
    forall mf :: Places(cfg, s, mf) == if mf in s.pending then 1 else 0
  }

  ghost predicate IdsUsed(pending: map<MemFetch, nat>, nextId: nat) {
    forall mf :: mf in pending && mf.id.Allocated? ==> mf.id.n < nextId
  }

  ghost predicate HitsTicking(q: seq<HitEntry>) {
    forall i :: 0 <= i < |q| ==> q[i].remaining > 0
  }

  ghost predicate Clean(lines: seq<Block>) {
    forall i: nat, sec: SectorId :: i < |lines| ==>
      lines[i].sectors[sec].status != MODIFIED && !lines[i].sectors[sec].modifiedOnFill
  }

  // the policies whose fills and evictions the invariant covers
  ghost predicate Covered(cfg: Config) {
    && cfg.Valid()
    && match cfg.writePolicy
       case READ_ONLY => true
       case WRITE_BACK | WRITE_THROUGH =>
         || cfg.writeAllocate == NO_WRITE_ALLOCATE || cfg.writeAllocate == WRITE_ALLOCATE
         || (cfg.writeAllocate == LAZY_FETCH_ON_READ && cfg.cacheType == SECTOR)
       case _ => false
  }

  ghost predicate CacheInv(cfg: Config, s: CacheState) {
    && Covered(cfg) && TagsOk(cfg, s.tags)
    && PinsExact(s.tags.lines, s.pending) && PinsHold(cfg, s.tags.lines, s.pending)
    && MshrsOk(cfg, s.mshr, s.ready, s.extra, s.pending)
    && SectorsOk(cfg, s.tags.lines, s.mshr, s.ready, s.pending)
    && Accounted(cfg, s) && IdsUsed(s.pending, s.nextId) && HitsTicking(s.hitQueue)
    && WithinCapacity(cfg, s)
    && (cfg.writePolicy == READ_ONLY ==> Clean(s.tags.lines))
  }

  // ---- pins and line updates ----

  lemma PinAdds(lines: seq<Block>, pending: map<MemFetch, nat>, mf: MemFetch, i: nat)
    requires PinsExact(lines, pending) && mf !in pending && i < |lines|
    ensures PinsExact(lines[i := lines[i].Pin()], pending[mf := i])
  {
    var pending' := pending[mf := i];
    assert PinnedAt(pending', i) == PinnedAt(pending, i) + {mf};
    forall j | 0 <= j < |lines| && j != i
      ensures PinnedAt(pending', j) == PinnedAt(pending, j)
    {
    }
  }

  lemma UnpinRemoves(lines: seq<Block>, pending: map<MemFetch, nat>, mf: MemFetch)
    requires PinsExact(lines, pending) && mf in pending
    ensures lines[pending[mf]].IsPinned()
    ensures PinsExact(lines[pending[mf] := lines[pending[mf]].Unpin()], pending - {mf})
  {
    var (pending', i) := (pending - {mf}, pending[mf]);
    assert PinnedAt(pending', i) == PinnedAt(pending, i) - {mf};
    assert mf in PinnedAt(pending, i);
    forall j | 0 <= j < |lines| && j != i
      ensures PinnedAt(pending', j) == PinnedAt(pending, j)
    {
    }
  }

  lemma UnpinnedHoldsNothing(lines: seq<Block>, pending: map<MemFetch, nat>, i: nat)
    requires PinsExact(lines, pending) && i < |lines| && lines[i].pins == 0
    ensures forall mf :: mf in pending ==> pending[mf] != i
  {
    forall mf | mf in pending
      ensures pending[mf] != i
    {
      assert pending[mf] == i ==> mf in PinnedAt(pending, i);
    }
  }

  // A line may be given to another block only when no response needs it.
  ghost predicate SafeUpdate(lines: seq<Block>, i: nat, b: Block)
    requires i < |lines|
  {
    && b.pins == lines[i].pins
    && (lines[i].pins == 0 || (b.tag == lines[i].tag && (!lines[i].IsInvalidLine() ==> !b.IsInvalidLine())))
  }

  lemma SafeUpdateKeepsPins(cfg: Config, lines: seq<Block>, pending: map<MemFetch, nat>, i: nat, b: Block)
    requires cfg.lineSize > 0 && i < |lines| && SafeUpdate(lines, i, b)
    requires PinsExact(lines, pending) && PinsHold(cfg, lines, pending)
    ensures PinsExact(lines[i := b], pending) && PinsHold(cfg, lines[i := b], pending)
  {
    if lines[i].pins == 0 {
      UnpinnedHoldsNothing(lines, pending, i);
    }
  }

  // how the sectors of a line may change while entries for them exist
  ghost predicate SectorStep(s: Sector, t: Sector) {
    (Awaiting(s) ==> Awaiting(t)) && (Filled(s) ==> Filled(t)) && (t.status == RESERVED ==> s.status == RESERVED)
  }

  ghost predicate SafeSectors(lines: seq<Block>, i: nat, b: Block)
    requires i < |lines|
  {
    || (b.tag == lines[i].tag && forall sec: SectorId :: SectorStep(lines[i].sectors[sec], b.sectors[sec]))
    || (lines[i].pins == 0 && forall sec: SectorId :: b.sectors[sec].status != RESERVED)
  }

  lemma SafeSectorsKept(cfg: Config, lines: seq<Block>, mshr: MshrTable, ready: seq<nat>, pending: map<MemFetch, nat>,
                        i: nat, b: Block)
    requires i < |lines| && SectorsOk(cfg, lines, mshr, ready, pending) && PinsExact(lines, pending)
    requires SafeSectors(lines, i, b)
    ensures SectorsOk(cfg, lines[i := b], mshr, ready, pending)
  {
    var lines' := lines[i := b];
    if lines[i].pins == 0 {
      UnpinnedHoldsNothing(lines, pending, i);
    }
    forall a | a in mshr
      ensures EntrySector(cfg, lines', mshr, ready, pending, a)
    {
      assert EntrySector(cfg, lines, mshr, ready, pending, a);
    }
    forall j: nat, sec: SectorId | j < |lines|
      ensures ReservedIsOwned(lines', mshr, ready, j, sec)
    {
      assert ReservedIsOwned(lines, mshr, ready, j, sec);
    }
  }
}
