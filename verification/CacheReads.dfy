/** A read that misses: it joins the MSHR entry of its sector or opens one, and
    never an entry whose data has already come back. */
module CacheReads {
  import opened CacheTypes
  import opened TagArrays
  import opened CacheModel
  import opened CacheLines
  import opened CacheInvariant

  // Two fetches with one MSHR address are for the same sector of the same block.
  lemma SameKeySameSector(cfg: Config, x: MemFetch, y: MemFetch)
    requires cfg.Valid() && WellFormed(cfg, x) && WellFormed(cfg, y)
    ensures cfg.MshrAddr(x.addr) == cfg.MshrAddr(y.addr)
            <==> cfg.BlockAddr(x.addr) == cfg.BlockAddr(y.addr) && cfg.SectorOf(x) == cfg.SectorOf(y)
  {
    hide Config.MshrAddr, Config.BlockAddr, WellFormed;
    MshrAddrIsAtom(cfg, x);
    MshrAddrIsAtom(cfg, y);
    BlockAddrTwice(cfg, x.addr);
    BlockAddrTwice(cfg, y.addr);
    if cfg.MshrAddr(x.addr) == cfg.MshrAddr(y.addr) {
      AtomAddrInjective(cfg, cfg.BlockAddr(x.addr), cfg.SectorOf(x), cfg.BlockAddr(y.addr), cfg.SectorOf(y));
    }
  }

  /** While a sector has an MSHR entry, a search for it finds the line pinned by
      the entry's first request, and answers from that line's sector. */
  lemma EntryIsResident(cfg: Config, s: CacheState, mf: MemFetch)
    requires CacheInv(cfg, s) && WellFormed(cfg, mf) && cfg.MshrAddr(mf.addr) in s.mshr
    ensures var a := cfg.MshrAddr(mf.addr);
            && s.mshr[a] != [] && s.mshr[a][0] in s.pending
            && var i := s.pending[s.mshr[a][0]];
               && i < |s.tags.lines| && cfg.SectorOf(s.mshr[a][0]) == cfg.SectorOf(mf)
               && ProbeFor(cfg, s, mf)
                  == ProbeResult(HitStatus(s.tags.lines[i].sectors[cfg.SectorOf(mf)], mf.isWrite), i)
               && (if a in s.ready then Filled(s.tags.lines[i].sectors[cfg.SectorOf(mf)])
                   else Awaiting(s.tags.lines[i].sectors[cfg.SectorOf(mf)]))
  {
    hide Config.MshrAddr, Config.BlockAddr, WellFormed, Accounted, PinsExact, ProbeTags, LinesOk;
    var a := cfg.MshrAddr(mf.addr);
    var first := s.mshr[a][0];
    assert IsMember(cfg, s.mshr[a][0], a, s.pending);
    assert EntrySector(cfg, s.tags.lines, s.mshr, s.ready, s.pending, a);
    SameKeySameSector(cfg, first, mf);
    BlockAddrTwice(cfg, mf.addr);
    ProbeFinds(cfg, s.tags, cfg.BlockAddr(mf.addr), cfg.SectorOf(mf), mf.isWrite, s.pending[first]);
  }

  /** What the outer probe says about the MSHR entry: after HIT_RESERVED there is
      one still waiting, after MISS there is none, and a request that did not hit
      never meets an entry already marked ready. */
  lemma ProbeTellsEntry(cfg: Config, s: CacheState, mf: MemFetch)
    requires CacheInv(cfg, s) && WellFormed(cfg, mf)
    ensures var (p, a) := (ProbeFor(cfg, s, mf), cfg.MshrAddr(mf.addr));
            && (p.status == MISS || p.status == RESERVATION_FAIL ==> a !in s.mshr)
            && (p.status == HIT_RESERVED ==> a in s.mshr)
            && (p.status != HIT ==> a !in s.ready)
  {
    hide Config.MshrAddr, Config.BlockAddr, WellFormed, Accounted, PinsExact, ProbeTags, LinesOk;
    var (p, a) := (ProbeFor(cfg, s, mf), cfg.MshrAddr(mf.addr));
    if a in s.mshr {
      EntryIsResident(cfg, s, mf);
    }
    if p.status == HIT_RESERVED {
      BlockAddrTwice(cfg, mf.addr);
      ProbeIsRight(cfg, s.tags, cfg.BlockAddr(mf.addr), cfg.SectorOf(mf), mf.isWrite);
      MshrAddrIsAtom(cfg, mf);
      assert ReservedIsOwned(s.tags.lines, s.mshr, s.ready, p.idx, cfg.SectorOf(mf));
    }
  }

  lemma AddKeepsMshrs(cfg: Config, mshr: MshrTable, ready: seq<nat>, extra: map<MemFetch, Extra>,
                      pending: map<MemFetch, nat>, mf: MemFetch, i: nat)
    requires cfg.lineSize > 0 && MshrsOk(cfg, mshr, ready, extra, pending)
    requires mf !in pending && !mf.isWrite
    ensures var a := cfg.MshrAddr(mf.addr);
            MshrsOk(cfg, MshrAdd(mshr, a, mf), ready, if a in mshr then extra else extra[mf := Extra(a, i)],
                    pending[mf := i])
  {
    hide Config.MshrAddr;
    var a := cfg.MshrAddr(mf.addr);
    var (mshr', pending') := (MshrAdd(mshr, a, mf), pending[mf := i]);
    var extra' := if a in mshr then extra else extra[mf := Extra(a, i)];
    forall b | b in mshr'
      ensures mshr'[b] != [] && (b in ready || mshr'[b][0] in extra')
      ensures forall k :: 0 <= k < |mshr'[b]| ==> IsMember(cfg, mshr'[b][k], b, pending')
    {
      forall k | 0 <= k < |mshr'[b]|
        ensures IsMember(cfg, mshr'[b][k], b, pending')
      {
        if b in mshr && k < |mshr[b]| {
          assert IsMember(cfg, mshr[b][k], b, pending);
        }
      }
    }
    forall f | f in extra'
      ensures OwnsEntry(cfg, mshr', ready, f, extra'[f], pending')
    {
      if f in extra {
        assert OwnsEntry(cfg, mshr, ready, f, extra[f], pending);
      }
    }
  }

  // the line of a miss after tag access and pin
  ghost predicate ReadLine(cfg: Config, b: Block, b': Block, mf: MemFetch)
    requires cfg.lineSize > 0
  {
    var sec := cfg.SectorOf(mf);
    && b'.tag == cfg.BlockAddr(mf.addr) && Awaiting(b'.sectors[sec])
    && (|| (b.tag == b'.tag && !b.IsInvalidLine()
            && forall other: SectorId :: other != sec ==> b'.sectors[other] == b.sectors[other])
        || (b.pins == 0 && forall other: SectorId :: other != sec ==> b'.sectors[other].status != RESERVED))
  }

  ghost predicate ReadContext(cfg: Config, lines: seq<Block>, mshr: MshrTable, ready: seq<nat>,
                              extra: map<MemFetch, Extra>, pending: map<MemFetch, nat>, mf: MemFetch, i: nat, b': Block)
    requires cfg.Valid()
  {
    && WellFormed(cfg, mf) && i < |lines| && mf !in pending
    && PinsExact(lines, pending) && PinsHold(cfg, lines, pending)
    && MshrsOk(cfg, mshr, ready, extra, pending) && SectorsOk(cfg, lines, mshr, ready, pending)
    && ReadLine(cfg, lines[i], b', mf) && cfg.MshrAddr(mf.addr) !in ready
    && var a := cfg.MshrAddr(mf.addr);
       (a in mshr ==> mshr[a] != [] && mshr[a][0] in pending && pending[mshr[a][0]] == i)
  }

  lemma ReadKeepsEntry(cfg: Config, lines: seq<Block>, mshr: MshrTable, ready: seq<nat>, extra: map<MemFetch, Extra>,
                       pending: map<MemFetch, nat>, mf: MemFetch, i: nat, b': Block, c: nat)
    requires cfg.Valid() && ReadContext(cfg, lines, mshr, ready, extra, pending, mf, i, b')
    requires c in mshr && c != cfg.MshrAddr(mf.addr)
    ensures EntrySector(cfg, lines[i := b'], MshrAdd(mshr, cfg.MshrAddr(mf.addr), mf), ready, pending[mf := i], c)
  {
    hide Config.MshrAddr, Config.BlockAddr, WellFormed;
    if lines[i].pins == 0 {
      UnpinnedHoldsNothing(lines, pending, i);
    }
    var first := mshr[c][0];
    assert EntrySector(cfg, lines, mshr, ready, pending, c);
    assert IsMember(cfg, mshr[c][0], c, pending);
    SameKeySameSector(cfg, first, mf);
    assert Holds(lines[pending[first]], cfg.BlockAddr(first.addr));
  }

  lemma ReadJoinsEntry(cfg: Config, lines: seq<Block>, mshr: MshrTable, ready: seq<nat>, extra: map<MemFetch, Extra>,
                       pending: map<MemFetch, nat>, mf: MemFetch, i: nat, b': Block)
    requires cfg.Valid() && ReadContext(cfg, lines, mshr, ready, extra, pending, mf, i, b')
    ensures EntrySector(cfg, lines[i := b'], MshrAdd(mshr, cfg.MshrAddr(mf.addr), mf), ready, pending[mf := i],
                        cfg.MshrAddr(mf.addr))
  {
    hide Config.MshrAddr, Config.BlockAddr, WellFormed;
    var a := cfg.MshrAddr(mf.addr);
    if a in mshr {
      assert IsMember(cfg, mshr[a][0], a, pending);
      SameKeySameSector(cfg, mshr[a][0], mf);
    }
  }

  lemma ReadKeepsReserved(cfg: Config, lines: seq<Block>, mshr: MshrTable, ready: seq<nat>, extra: map<MemFetch, Extra>,
                          pending: map<MemFetch, nat>, mf: MemFetch, i: nat, b': Block, j: nat, sec: SectorId)
    requires cfg.Valid() && ReadContext(cfg, lines, mshr, ready, extra, pending, mf, i, b') && j < |lines|
    ensures ReservedIsOwned(lines[i := b'], MshrAdd(mshr, cfg.MshrAddr(mf.addr), mf), ready, j, sec)
  {
    hide Config.MshrAddr, Config.BlockAddr, WellFormed, PinsExact, PinsHold, MshrsOk;
    MshrAddrIsAtom(cfg, mf);
    assert ReservedIsOwned(lines, mshr, ready, j, sec);
  }

  lemma ReadKeepsSectors(cfg: Config, lines: seq<Block>, mshr: MshrTable, ready: seq<nat>, extra: map<MemFetch, Extra>,
                         pending: map<MemFetch, nat>, mf: MemFetch, i: nat, b': Block)
    requires cfg.Valid() && ReadContext(cfg, lines, mshr, ready, extra, pending, mf, i, b')
    ensures SectorsOk(cfg, lines[i := b'], MshrAdd(mshr, cfg.MshrAddr(mf.addr), mf), ready, pending[mf := i])
  {
    hide Config.MshrAddr, Config.BlockAddr, WellFormed, EntrySector, ReservedIsOwned, PinsExact, PinsHold, MshrsOk;
    var a := cfg.MshrAddr(mf.addr);
    var (lines', mshr', pending') := (lines[i := b'], MshrAdd(mshr, a, mf), pending[mf := i]);
    forall c | c in mshr'
      ensures EntrySector(cfg, lines', mshr', ready, pending', c)
    {
      if c == a {
        ReadJoinsEntry(cfg, lines, mshr, ready, extra, pending, mf, i, b');
      } else {
        ReadKeepsEntry(cfg, lines, mshr, ready, extra, pending, mf, i, b', c);
      }
    }
    forall j: nat, sec: SectorId | j < |lines|
      ensures ReservedIsOwned(lines', mshr', ready, j, sec)
    {
      ReadKeepsReserved(cfg, lines, mshr, ready, extra, pending, mf, i, b', j, sec);
    }
  }

  lemma SendKeepsAccounts(cfg: Config, s: CacheState, mf: MemFetch, i: nat)
    requires cfg.lineSize > 0 && Accounted(cfg, s) && mf !in s.pending
    ensures Accounted(cfg, s.(mshr := MshrAdd(s.mshr, cfg.MshrAddr(mf.addr), mf), pending := s.pending[mf := i]))
  {
    hide Config.MshrAddr;
    var s' := s.(mshr := MshrAdd(s.mshr, cfg.MshrAddr(mf.addr), mf), pending := s.pending[mf := i]);
    forall r
      ensures Places(cfg, s', r) == if r in s'.pending then 1 else 0
    {
      assert Places(cfg, s, r) == if r in s.pending then 1 else 0;
    }
  }

  // what a read that is not a hit does to its line
  ghost predicate ReadAccessed(cfg: Config, tags: Tags, mf: MemFetch, r: AccessResult)
    requires cfg.lineSize > 0 && r.idx < |tags.lines|
  {
    && |r.tags.lines| == |tags.lines| && r.tags.lines == tags.lines[r.idx := r.tags.lines[r.idx]]
    && ReadLine(cfg, tags.lines[r.idx], r.tags.lines[r.idx].Pin(), mf)
    && SafeUpdate(tags.lines, r.idx, r.tags.lines[r.idx])
    && Holds(r.tags.lines[r.idx], cfg.BlockAddr(mf.addr))
  }

  lemma MissAccessesLine(cfg: Config, tags: Tags, mf: MemFetch, time: nat, r: AccessResult)
    requires TagsOk(cfg, tags) && !mf.isWrite && r.idx < |tags.lines| && Accessed(cfg, tags, mf, time, r)
    requires r.status == MISS || r.status == SECTOR_MISS
    ensures ReadAccessed(cfg, tags, mf, r)
  {
    hide ProbeTags, DirtyExact, Config.BlockAddr, CountModified;
    assert LineOk(cfg, tags.lines[r.idx], r.idx);
  }

  lemma ReservedAccessesLine(cfg: Config, s: CacheState, mf: MemFetch, time: nat, r: AccessResult)
    requires CacheInv(cfg, s) && WellFormed(cfg, mf) && r.idx < |s.tags.lines| && Accessed(cfg, s.tags, mf, time, r)
    requires r.status == HIT_RESERVED && r.status == ProbeFor(cfg, s, mf).status && r.idx == ProbeFor(cfg, s, mf).idx
    ensures ReadAccessed(cfg, s.tags, mf, r)
  {
    hide ProbeFor, ProbeTags, MshrsOk, SectorsOk, PinsExact, PinsHold, TagsOk, Accounted, Clean, LinesOk, CountModified,
         WellFormed, Config.BlockAddr, Config.MshrAddr;
    ProbeTellsEntry(cfg, s, mf);
    EntryIsResident(cfg, s, mf);
  }
}
