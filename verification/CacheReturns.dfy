/** cycle(), fill() and next_access(): responses on their way back. */
module CacheReturns {
  import opened CacheTypes
  import opened TagArrays
  import opened CacheModel
  import opened CacheLines
  import opened CacheAdmission
  import opened CacheInvariant
  import opened CacheReads
  import opened CacheSteps

  // ---- cycle ----

  lemma WaitingOf(e: HitEntry, q: seq<HitEntry>)
    ensures Waiting([e] + q) == [e.mf] + Waiting(q)
  {
  }

  lemma AddToBoth<T>(x: T, a: seq<T>, b: seq<T>, c: seq<T>)
    requires multiset(a) + multiset(b) == multiset(c)
    ensures multiset([x] + a) + multiset(b) == multiset([x] + c) == multiset(a) + multiset([x] + b)
  {
  }

  lemma {:induction false} TickKeepsTime(q: seq<HitEntry>)
    requires HitsTicking(q)
    ensures HitsTicking(StillWaiting(q)) && |StillWaiting(q)| + |Expired(q)| == |q|
    decreases |q|
  {
    if q != [] {
      TickKeepsTime(q[1..]);
    }
  }

  lemma {:induction false} TickKeepsEntries(q: seq<HitEntry>)
    ensures multiset(Waiting(StillWaiting(q))) + multiset(Expired(q)) == multiset(Waiting(q))
    decreases |q|
  {
    if q == [] {
      assert Waiting(StillWaiting(q)) == [] && Waiting(q) == [];
    } else {
      hide Waiting;
      TickKeepsEntries(q[1..]);
      var (kept, gone) := (StillWaiting(q[1..]), Expired(q[1..]));
      assert q == [q[0]] + q[1..];
      WaitingOf(q[0], q[1..]);
      AddToBoth(q[0].mf, Waiting(kept), gone, Waiting(q[1..]));
      if q[0].remaining > 1 {
        WaitingOf(HitEntry(q[0].mf, q[0].remaining - 1), kept);
        assert Expired(q) == gone;
      } else {
        assert StillWaiting(q) == kept;
      }
    }
  }

  lemma CycleKeepsPlaces(cfg: Config, s: CacheState, memFull: bool, mf: MemFetch)
    requires cfg.lineSize > 0 && HitsTicking(s.hitQueue) && CacheCycle(s, memFull).Some?
    ensures Places(cfg, CacheCycle(s, memFull).value, mf) == Places(cfg, s, mf)
  {
    hide Config.MshrAddr, Waiting, StillWaiting, Expired;
    TickKeepsEntries(s.hitQueue);
    var (kept, gone) := (StillWaiting(s.hitQueue), Expired(s.hitQueue));
    assert (multiset(Waiting(kept)) + multiset(gone))[mf] == multiset(Waiting(s.hitQueue))[mf];
  }

  lemma CycleKeepsInv(cfg: Config, s: CacheState, memFull: bool)
    requires CacheInv(cfg, s)
    ensures CacheCycle(s, memFull).Some? && CacheInv(cfg, CacheCycle(s, memFull).value)
  {
    hide MshrsOk, SectorsOk, TagsOk, PinsExact, PinsHold, Clean, Sized, MshrWithinCapacity, Config.MshrAddr, Places,
      StillWaiting, Expired, Waiting;
    TickKeepsTime(s.hitQueue);
    var s' := CacheCycle(s, memFull).value;
    forall mf
      ensures Places(cfg, s', mf) == if mf in s'.pending then 1 else 0
    {
      CycleKeepsPlaces(cfg, s, memFull, mf);
    }
  }

  // ---- fill ----

  lemma SubsetHasRoom(ready: seq<nat>, keys: set<nat>, a: nat)
    requires Distinct(ready) && a in keys && a !in ready && forall b :: b in ready ==> b in keys
    ensures |ready| + 1 <= |keys|
    decreases |ready|
  {
    if ready == [] {
      assert {a} <= keys;
      SubsetSize({a}, keys);
    } else {
      var n := |ready| - 1;
      assert forall b :: b in ready[..n] ==> b in keys - {ready[n]};
      SubsetHasRoom(ready[..n], keys - {ready[n]}, a);
    }
  }

  lemma SubsetSize(x: set<nat>, y: set<nat>)
    requires x <= y
    ensures |x| <= |y|
  {
    assert y == x + (y - x);
  }

  /** The saved record of an outstanding fetch still names the line of its block,
      pinned and waiting, and its MSHR entry is not yet ready. */
  lemma FillFindsItsLine(cfg: Config, s: CacheState, mf: MemFetch)
    requires CacheInv(cfg, s) && mf in s.extra
    ensures var e := s.extra[mf];
            && e.cacheIndex < |s.tags.lines| && e.mshrAddr == cfg.MshrAddr(mf.addr)
            && Holds(s.tags.lines[e.cacheIndex], cfg.BlockAddr(mf.addr)) && s.tags.lines[e.cacheIndex].IsPinned()
            && Awaiting(s.tags.lines[e.cacheIndex].sectors[cfg.SectorOf(mf)])
            && e.mshrAddr in s.mshr && e.mshrAddr !in s.ready && s.mshr[e.mshrAddr] != [] && s.mshr[e.mshrAddr][0] == mf
            && |s.ready| + 1 <= |s.mshr| && WellFormed(cfg, mf)
  {
    hide Config.MshrAddr, Config.BlockAddr, WellFormed, Accounted, TagsOk;
    assert OwnsEntry(cfg, s.mshr, s.ready, mf, s.extra[mf], s.pending);
    assert EntrySector(cfg, s.tags.lines, s.mshr, s.ready, s.pending, s.extra[mf].mshrAddr);
    UnpinRemoves(s.tags.lines, s.pending, mf);
    SubsetHasRoom(s.ready, s.mshr.Keys, s.extra[mf].mshrAddr);
  }

  lemma FillKeepsMshrs(cfg: Config, mshr: MshrTable, ready: seq<nat>, extra: map<MemFetch, Extra>,
                       pending: map<MemFetch, nat>, mf: MemFetch)
    requires cfg.lineSize > 0 && MshrsOk(cfg, mshr, ready, extra, pending) && mf in extra
    ensures MshrsOk(cfg, mshr, ready + [extra[mf].mshrAddr], extra - {mf}, pending)
  {
    hide Config.MshrAddr;
    var a := extra[mf].mshrAddr;
    var (ready', extra') := (ready + [a], extra - {mf});
    assert OwnsEntry(cfg, mshr, ready, mf, extra[mf], pending);
    forall f | f in extra'
      ensures OwnsEntry(cfg, mshr, ready', f, extra'[f], pending)
    {
      assert OwnsEntry(cfg, mshr, ready, f, extra[f], pending);
    }
    forall c | c in mshr
      ensures c in ready' || mshr[c][0] in extra'
    {
      assert c in ready || mshr[c][0] in extra;
      if c !in ready && mshr[c][0] == mf {
        assert IsMember(cfg, mshr[c][0], c, pending);
      }
    }
    assert Distinct(ready');
  }

  ghost predicate FillContext(cfg: Config, lines: seq<Block>, mshr: MshrTable, ready: seq<nat>,
                              extra: map<MemFetch, Extra>, pending: map<MemFetch, nat>, mf: MemFetch, i: nat, b': Block)
    requires cfg.Valid()
  {
    && LinesOk(cfg, lines) && PinsHold(cfg, lines, pending)
    && MshrsOk(cfg, mshr, ready, extra, pending) && SectorsOk(cfg, lines, mshr, ready, pending)
    && mf in extra && extra[mf] == Extra(cfg.MshrAddr(mf.addr), i) && WellFormed(cfg, mf)
    && i < |lines| && Holds(lines[i], cfg.BlockAddr(mf.addr))
    && b'.tag == lines[i].tag && Filled(b'.sectors[cfg.SectorOf(mf)])
    && forall k: SectorId :: k != cfg.SectorOf(mf) ==> b'.sectors[k] == lines[i].sectors[k]
  }

  lemma FillKeepsEntry(cfg: Config, lines: seq<Block>, mshr: MshrTable, ready: seq<nat>, extra: map<MemFetch, Extra>,
                       pending: map<MemFetch, nat>, mf: MemFetch, i: nat, b': Block, c: nat)
    requires cfg.Valid() && FillContext(cfg, lines, mshr, ready, extra, pending, mf, i, b') && c in mshr
    ensures EntrySector(cfg, lines[i := b'], mshr, ready + [cfg.MshrAddr(mf.addr)], pending, c)
  {
    hide Config.MshrAddr, Config.BlockAddr, WellFormed, LinesOk, ReservedIsOwned;
    var first := mshr[c][0];
    assert EntrySector(cfg, lines, mshr, ready, pending, c);
    assert OwnsEntry(cfg, mshr, ready, mf, extra[mf], pending);
    assert IsMember(cfg, mshr[c][0], c, pending);
    assert Holds(lines[pending[first]], cfg.BlockAddr(first.addr));
    SameKeySameSector(cfg, first, mf);
  }

  lemma FillKeepsReserved(cfg: Config, lines: seq<Block>, mshr: MshrTable, ready: seq<nat>, extra: map<MemFetch, Extra>,
                          pending: map<MemFetch, nat>, mf: MemFetch, i: nat, b': Block, j: nat, sec: SectorId)
    requires cfg.Valid() && FillContext(cfg, lines, mshr, ready, extra, pending, mf, i, b') && j < |lines|
    ensures ReservedIsOwned(lines[i := b'], mshr, ready + [cfg.MshrAddr(mf.addr)], j, sec)
  {
    hide Config.MshrAddr, Config.BlockAddr, WellFormed, PinsHold, MshrsOk, EntrySector;
    assert ReservedIsOwned(lines, mshr, ready, j, sec);
    MshrAddrIsAtom(cfg, mf);
    BlockAddrTwice(cfg, mf.addr);
    assert LineOk(cfg, lines[j], j) && LineOk(cfg, lines[i], i);
    assert j != i ==> !SameBlock(lines[i], lines[j]);
    if lines[i := b'][j].sectors[sec].status == RESERVED && AtomAddr(lines[j].tag, sec) == cfg.MshrAddr(mf.addr) {
      AtomAddrInjective(cfg, lines[j].tag, sec, cfg.BlockAddr(mf.addr), cfg.SectorOf(mf));
    }
  }

  lemma FillKeepsSectors(cfg: Config, lines: seq<Block>, mshr: MshrTable, ready: seq<nat>, extra: map<MemFetch, Extra>,
                         pending: map<MemFetch, nat>, mf: MemFetch, i: nat, b': Block)
    requires cfg.Valid() && FillContext(cfg, lines, mshr, ready, extra, pending, mf, i, b')
    ensures SectorsOk(cfg, lines[i := b'], mshr, ready + [cfg.MshrAddr(mf.addr)], pending)
  {
    hide Config.MshrAddr, Config.BlockAddr, WellFormed, PinsHold, MshrsOk, EntrySector, ReservedIsOwned, LinesOk;
    var (lines', ready') := (lines[i := b'], ready + [cfg.MshrAddr(mf.addr)]);
    forall c | c in mshr
      ensures EntrySector(cfg, lines', mshr, ready', pending, c)
    {
      FillKeepsEntry(cfg, lines, mshr, ready, extra, pending, mf, i, b', c);
    }
    forall j: nat, sec: SectorId | j < |lines|
      ensures ReservedIsOwned(lines', mshr, ready', j, sec)
    {
      FillKeepsReserved(cfg, lines, mshr, ready, extra, pending, mf, i, b', j, sec);
    }
  }

  lemma FilledBlock(cfg: Config, b: Block, sec: SectorId, bytes: set<nat>)
    requires Awaiting(b.sectors[sec])
    ensures var b' := b.Fill(cfg.cacheType, sec, bytes);
            && b'.tag == b.tag && b'.blockAddr == b.blockAddr && b'.pins == b.pins && Filled(b'.sectors[sec])
            && (forall k: SectorId :: k != sec ==> b'.sectors[k] == b.sectors[k])
            && !b'.IsInvalidLine()
            && (!b.sectors[sec].modifiedOnFill ==> b'.sectors[sec].status == VALID && !b'.sectors[sec].modifiedOnFill)
  {
  }

  /** The fill of an outstanding fetch fails no assertion and keeps the invariant. */
  lemma FillKeepsInv(cfg: Config, s: CacheState, mf: MemFetch)
    requires CacheInv(cfg, s) && mf in s.extra
    ensures CacheFill(cfg, s, mf).Some? && CacheInv(cfg, CacheFill(cfg, s, mf).value)
  {
    hide Config.MshrAddr, Config.BlockAddr, WellFormed, MshrsOk, SectorsOk, DirtyExact, PinsExact, PinsHold, LinesOk,
         Sized, Places, MshrWithinCapacity, TimesBelowSentinel, Block.Fill, Awaiting, Filled;
    InvIsSized(cfg, s);
    FillFindsItsLine(cfg, s, mf);
    var (e, sec) := (s.extra[mf], cfg.SectorOf(mf));
    var b := s.tags.lines[e.cacheIndex];
    var b' := b.Fill(cfg.cacheType, sec, mf.bytes);
    AwaitingSurvives(b.sectors[sec]);
    FilledBlock(cfg, b, sec, mf.bytes);
    FillKeepsTags(cfg, s.tags, e.cacheIndex, sec, mf.bytes);
    FillKeepsMshrs(cfg, s.mshr, s.ready, s.extra, s.pending, mf);
    FillKeepsSectors(cfg, s.tags.lines, s.mshr, s.ready, s.extra, s.pending, mf, e.cacheIndex, b');
    SafeUpdateKeepsPins(cfg, s.tags.lines, s.pending, e.cacheIndex, b');
    if cfg.writePolicy == READ_ONLY {
      PinKeepsClean(cfg, s.tags.lines, e.cacheIndex, b');
    }
    SameAccounts(cfg, s, CacheFill(cfg, s, mf).value);
  }

  lemma AwaitingSurvives(s: Sector)
    requires Awaiting(s)
    ensures s.status == MODIFIED ==> s.modifiedOnFill
  {
  }

  // ---- next_access ----

  // a request named once in the accounts is where it was found, and nowhere else
  lemma OnlyPlace(cfg: Config, s: CacheState, mf: MemFetch)
    requires cfg.lineSize > 0 && Accounted(cfg, s)
    ensures mf in s.readyQueue ==> mf in s.pending && mf !in Waiting(s.hitQueue)
    ensures mf in s.readyQueue && cfg.MshrAddr(mf.addr) in s.mshr ==> mf !in s.mshr[cfg.MshrAddr(mf.addr)]
    ensures cfg.MshrAddr(mf.addr) in s.mshr && mf in s.mshr[cfg.MshrAddr(mf.addr)] ==>
              mf in s.pending && multiset(s.mshr[cfg.MshrAddr(mf.addr)])[mf] == 1
  {
    hide Config.MshrAddr;
    assert Places(cfg, s, mf) == if mf in s.pending then 1 else 0;
  }

  // dropping a request that no entry lists keeps the entries
  lemma LessPendingKeepsMshrs(cfg: Config, mshr: MshrTable, ready: seq<nat>, extra: map<MemFetch, Extra>,
                              pending: map<MemFetch, nat>, mf: MemFetch)
    requires cfg.lineSize > 0 && MshrsOk(cfg, mshr, ready, extra, pending)
    requires cfg.MshrAddr(mf.addr) in mshr ==> mf !in mshr[cfg.MshrAddr(mf.addr)]
    ensures MshrsOk(cfg, mshr, ready, extra, pending - {mf})
  {
    hide Config.MshrAddr;
    var pending' := pending - {mf};
    forall a, k | a in mshr && 0 <= k < |mshr[a]|
      ensures IsMember(cfg, mshr[a][k], a, pending')
    {
      assert IsMember(cfg, mshr[a][k], a, pending);
    }
    forall f | f in extra
      ensures OwnsEntry(cfg, mshr, ready, f, extra[f], pending')
    {
      assert OwnsEntry(cfg, mshr, ready, f, extra[f], pending);
    }
  }

  lemma LessPendingKeepsSectors(cfg: Config, lines: seq<Block>, mshr: MshrTable, ready: seq<nat>,
                                extra: map<MemFetch, Extra>, pending: map<MemFetch, nat>, mf: MemFetch)
    requires cfg.lineSize > 0 && SectorsOk(cfg, lines, mshr, ready, pending)
             && MshrsOk(cfg, mshr, ready, extra, pending)
    requires cfg.MshrAddr(mf.addr) in mshr ==> mf !in mshr[cfg.MshrAddr(mf.addr)]
    ensures SectorsOk(cfg, lines, mshr, ready, pending - {mf})
  {
    hide Config.MshrAddr;
    forall a | a in mshr
      ensures EntrySector(cfg, lines, mshr, ready, pending - {mf}, a)
    {
      assert EntrySector(cfg, lines, mshr, ready, pending, a);
      assert IsMember(cfg, mshr[a][0], a, pending);
    }
  }

  lemma UnpinGivesPinBack(cfg: Config, s: CacheState, mf: MemFetch)
    requires CacheInv(cfg, s) && mf in s.pending
    ensures s.pending[mf] < |s.tags.lines| && s.tags.lines[s.pending[mf]].IsPinned() && Unpin(s, mf).Some?
    ensures var (s', i) := (Unpin(s, mf).value, s.pending[mf]);
            && s'.tags == OnLine(s.tags, i, s.tags.lines[i].Unpin())
            && PinsExact(s'.tags.lines, s'.pending) && PinsHold(cfg, s'.tags.lines, s'.pending)
            && PinsHold(cfg, s'.tags.lines, s.pending) && !s.tags.lines[i].IsInvalidLine()
  {
    hide MshrsOk, SectorsOk, TagsOk, Accounted, MshrWithinCapacity, Config.BlockAddr, WellFormed, Clean, Sized;
    UnpinRemoves(s.tags.lines, s.pending, mf);
  }

  /** Unpinning a delivered request: its line had a pin to give back. */
  lemma UnpinKeepsLines(cfg: Config, s: CacheState, mf: MemFetch)
    requires CacheInv(cfg, s) && mf in s.pending
    ensures Unpin(s, mf).Some?
    ensures var s' := Unpin(s, mf).value;
            && s' == s.(tags := s'.tags, pending := s.pending - {mf})
            && TagsOk(cfg, s'.tags) && PinsExact(s'.tags.lines, s'.pending) && PinsHold(cfg, s'.tags.lines, s'.pending)
            && PinsHold(cfg, s'.tags.lines, s.pending)
            && (cfg.writePolicy == READ_ONLY ==> Clean(s'.tags.lines))
            && SectorsOk(cfg, s'.tags.lines, s.mshr, s.ready, s.pending)
  {
    hide MshrsOk, SectorsOk, CountModified, Accounted, MshrWithinCapacity, Config.BlockAddr, WellFormed, PinsExact,
         PinsHold, SafeSectors, Clean;
    UnpinGivesPinBack(cfg, s, mf);
    var i := s.pending[mf];
    var b := s.tags.lines[i];
    assert LineOk(cfg, b, i);
    TagsAfterSameBlock(cfg, s.tags, i, b.Unpin(), s.tags.dirty);
    if cfg.writePolicy == READ_ONLY {
      UnpinIsClean(s.tags.lines, i);
    }
    UnpinIsSafe(s.tags.lines, i);
    SafeSectorsKept(cfg, s.tags.lines, s.mshr, s.ready, s.pending, i, b.Unpin());
  }

  lemma UnpinIsSafe(lines: seq<Block>, i: nat)
    requires i < |lines|
    ensures SafeSectors(lines, i, lines[i].Unpin())
  {
  }

  lemma UnpinIsClean(lines: seq<Block>, i: nat)
    requires Clean(lines) && i < |lines|
    ensures Clean(lines[i := lines[i].Unpin()])
  {
  }

  // handing out the first ready hit response
  lemma NextFromReadyQueue(cfg: Config, s: CacheState)
    requires CacheInv(cfg, s) && s.readyQueue != []
    ensures CacheNext(s).Some? && CacheInv(cfg, CacheNext(s).value.s)
    ensures var d := CacheNext(s).value;
            d.mf == s.readyQueue[0] && d.mf in s.pending && d.s.pending == s.pending - {d.mf}
  {
    hide Config.MshrAddr, MshrsOk, SectorsOk, TagsOk, PinsExact, PinsHold, Clean, MshrWithinCapacity, Unpin, Places;
    var mf := s.readyQueue[0];
    OnlyPlace(cfg, s, mf);
    UnpinKeepsLines(cfg, s, mf);
    var s1 := s.(readyQueue := s.readyQueue[1..]);
    UnpinIgnoresQueues(s, s1, mf);
    var s' := Unpin(s1, mf).value;
    LessPendingKeepsMshrs(cfg, s.mshr, s.ready, s.extra, s.pending, mf);
    LessPendingKeepsSectors(cfg, s'.tags.lines, s.mshr, s.ready, s.extra, s.pending, mf);
    ReadyQueueAccounts(cfg, s, s');
  }

  lemma UnpinIgnoresQueues(s: CacheState, s1: CacheState, mf: MemFetch)
    requires s1.tags == s.tags && s1.pending == s.pending && Unpin(s, mf).Some?
    ensures Unpin(s1, mf).Some?
    ensures Unpin(s1, mf).value == s1.(tags := Unpin(s, mf).value.tags, pending := Unpin(s, mf).value.pending)
  {
  }

  lemma ReadyQueueAccounts(cfg: Config, s: CacheState, s': CacheState)
    requires cfg.lineSize > 0 && Accounted(cfg, s) && s.readyQueue != []
    requires s'.hitQueue == s.hitQueue && s'.mshr == s.mshr && s'.readyQueue == s.readyQueue[1..]
    requires s'.pending == s.pending - {s.readyQueue[0]}
    ensures Accounted(cfg, s')
  {
    hide Config.MshrAddr;
    assert s.readyQueue == [s.readyQueue[0]] + s'.readyQueue;
    forall mf
      ensures Places(cfg, s', mf) == if mf in s'.pending then 1 else 0
    {
      assert Places(cfg, s, mf) == if mf in s.pending then 1 else 0;
    }
  }

  // the MSHR table after the first request of the first ready entry was taken
  function PopTable(mshr: MshrTable, a: nat): MshrTable
    requires a in mshr && mshr[a] != []
  {
    if |mshr[a]| == 1 then mshr - {a} else mshr[a := mshr[a][1..]]
  }

  function PopReady(mshr: MshrTable, ready: seq<nat>): seq<nat>
    requires ready != [] && ready[0] in mshr
  {
    if |mshr[ready[0]]| == 1 then ready[1..] else ready
  }

  ghost predicate PopContext(cfg: Config, mshr: MshrTable, ready: seq<nat>, extra: map<MemFetch, Extra>,
                             pending: map<MemFetch, nat>, mf: MemFetch)
    requires cfg.lineSize > 0
  {
    && MshrsOk(cfg, mshr, ready, extra, pending) && ready != [] && ready[0] in mshr
    && mshr[ready[0]] != [] && mf == mshr[ready[0]][0] && mf !in mshr[ready[0]][1..]
    && cfg.MshrAddr(mf.addr) == ready[0]
  }

  lemma PopKeepsMshrs(cfg: Config, mshr: MshrTable, ready: seq<nat>, extra: map<MemFetch, Extra>,
                      pending: map<MemFetch, nat>, mf: MemFetch)
    requires cfg.lineSize > 0 && PopContext(cfg, mshr, ready, extra, pending, mf)
    ensures MshrsOk(cfg, PopTable(mshr, ready[0]), PopReady(mshr, ready), extra, pending - {mf})
  {
    hide Config.MshrAddr;
    var a := ready[0];
    var (mshr', ready', pending') := (PopTable(mshr, a), PopReady(mshr, ready), pending - {mf});
    forall c | c in mshr'
      ensures mshr'[c] != [] && (c in ready' || mshr'[c][0] in extra)
      ensures forall k :: 0 <= k < |mshr'[c]| ==> IsMember(cfg, mshr'[c][k], c, pending')
    {
      assert c in ready || mshr[c][0] in extra;
      forall k | 0 <= k < |mshr'[c]|
        ensures IsMember(cfg, mshr'[c][k], c, pending')
      {
        if c == a {
          assert IsMember(cfg, mshr[a][k + 1], a, pending);
        } else {
          assert IsMember(cfg, mshr[c][k], c, pending);
        }
      }
    }
    forall f | f in extra
      ensures OwnsEntry(cfg, mshr', ready', f, extra[f], pending')
    {
      assert OwnsEntry(cfg, mshr, ready, f, extra[f], pending);
    }
  }

  lemma PopKeepsEntry(cfg: Config, lines: seq<Block>, mshr: MshrTable, ready: seq<nat>, extra: map<MemFetch, Extra>,
                      pending: map<MemFetch, nat>, mf: MemFetch, c: nat)
    requires cfg.Valid() && PopContext(cfg, mshr, ready, extra, pending, mf)
    requires LinesOk(cfg, lines) && PinsHold(cfg, lines, pending) && SectorsOk(cfg, lines, mshr, ready, pending)
    requires c in PopTable(mshr, ready[0])
    ensures EntrySector(cfg, lines, PopTable(mshr, ready[0]), PopReady(mshr, ready), pending - {mf}, c)
  {
    hide Config.MshrAddr, Config.BlockAddr, WellFormed, ReservedIsOwned, LineOk, Awaiting, Filled;
    var a := ready[0];
    assert EntrySector(cfg, lines, mshr, ready, pending, c);
    assert IsMember(cfg, mshr[c][0], c, pending);
    if c == a {
      var (x, y) := (mshr[a][0], mshr[a][1]);
      assert IsMember(cfg, mshr[a][1], a, pending);
      assert Holds(lines[pending[x]], cfg.BlockAddr(x.addr)) && Holds(lines[pending[y]], cfg.BlockAddr(y.addr));
      SameKeySameSector(cfg, x, y);
      assert pending[x] != pending[y] ==> !SameBlock(lines[pending[x]], lines[pending[y]]);
    }
  }

  lemma PopKeepsSectors(cfg: Config, lines: seq<Block>, mshr: MshrTable, ready: seq<nat>, extra: map<MemFetch, Extra>,
                        pending: map<MemFetch, nat>, mf: MemFetch)
    requires cfg.Valid() && PopContext(cfg, mshr, ready, extra, pending, mf)
    requires LinesOk(cfg, lines) && PinsHold(cfg, lines, pending) && SectorsOk(cfg, lines, mshr, ready, pending)
    ensures SectorsOk(cfg, lines, PopTable(mshr, ready[0]), PopReady(mshr, ready), pending - {mf})
  {
    hide Config.MshrAddr, Config.BlockAddr, WellFormed, EntrySector, LinesOk, PinsHold, MshrsOk;
    var (mshr', ready', pending') := (PopTable(mshr, ready[0]), PopReady(mshr, ready), pending - {mf});
    forall c | c in mshr'
      ensures EntrySector(cfg, lines, mshr', ready', pending', c)
    {
      PopKeepsEntry(cfg, lines, mshr, ready, extra, pending, mf, c);
    }
    forall j: nat, sec: SectorId | j < |lines|
      ensures ReservedIsOwned(lines, mshr', ready', j, sec)
    {
      assert ReservedIsOwned(lines, mshr, ready, j, sec);
    }
  }

  lemma PopAccounts(cfg: Config, s: CacheState, s': CacheState, a: nat)
    requires cfg.lineSize > 0 && Accounted(cfg, s) && a in s.mshr && s.mshr[a] != []
             && cfg.MshrAddr(s.mshr[a][0].addr) == a
    requires s'.hitQueue == s.hitQueue && s'.readyQueue == s.readyQueue && s'.mshr == PopTable(s.mshr, a)
    requires s'.pending == s.pending - {s.mshr[a][0]}
    ensures Accounted(cfg, s')
  {
    hide Config.MshrAddr;
    var q := s.mshr[a];
    assert q == [q[0]] + q[1..];
    forall mf
      ensures Places(cfg, s', mf) == if mf in s'.pending then 1 else 0
    {
      assert Places(cfg, s, mf) == if mf in s.pending then 1 else 0;
    }
  }

  lemma HeadOccursOnce(q: seq<MemFetch>)
    requires q != [] && multiset(q)[q[0]] == 1
    ensures q[0] !in q[1..]
  {
    assert q == [q[0]] + q[1..];
  }

  lemma PopKeepsCapacity(cfg: Config, mshr: MshrTable, a: nat)
    requires MshrWithinCapacity(cfg, mshr) && a in mshr && mshr[a] != []
    ensures MshrWithinCapacity(cfg, PopTable(mshr, a))
  {
    var mshr' := PopTable(mshr, a);
    assert mshr'.Keys <= mshr.Keys;
    SubsetSize(mshr'.Keys, mshr.Keys);
    assert |mshr'| == |mshr'.Keys| && |mshr| == |mshr.Keys|;
  }

  // handing out the next request of the first entry marked ready
  lemma NextFromMshrs(cfg: Config, s: CacheState)
    requires CacheInv(cfg, s) && s.readyQueue == [] && s.ready != []
    ensures CacheNext(s).Some? && CacheInv(cfg, CacheNext(s).value.s)
    ensures var d := CacheNext(s).value;
            && s.ready[0] in s.mshr && s.mshr[s.ready[0]] != [] && d.mf == s.mshr[s.ready[0]][0]
            && d.mf in s.pending && d.s.pending == s.pending - {d.mf}
  {
    hide Config.MshrAddr, SectorsOk, DirtyExact, PinsExact, PinsHold, Clean, MshrWithinCapacity, Unpin, Places, LinesOk,
         TimesBelowSentinel, OwnsEntry;
    var a := s.ready[0];
    assert a in s.ready;
    var mf := s.mshr[a][0];
    assert IsMember(cfg, s.mshr[a][0], a, s.pending);
    OnlyPlace(cfg, s, mf);
    HeadOccursOnce(s.mshr[a]);
    hide MshrsOk;
    UnpinKeepsLines(cfg, s, mf);
    var s1 := s.(mshr := PopTable(s.mshr, a), ready := PopReady(s.mshr, s.ready));
    UnpinIgnoresQueues(s, s1, mf);
    var s' := Unpin(s1, mf).value;
    PopKeepsMshrs(cfg, s.mshr, s.ready, s.extra, s.pending, mf);
    PopKeepsSectors(cfg, s'.tags.lines, s.mshr, s.ready, s.extra, s.pending, mf);
    PopAccounts(cfg, s, s', a);
    PopKeepsCapacity(cfg, s.mshr, a);
  }

  /** A ready response is handed out, its pin given back, and the invariant kept. */
  lemma NextKeepsInv(cfg: Config, s: CacheState)
    requires CacheInv(cfg, s) && AccessReady(s)
    ensures CacheNext(s).Some? && CacheInv(cfg, CacheNext(s).value.s)
    ensures var d := CacheNext(s).value; d.mf in s.pending && d.s.pending == s.pending - {d.mf}
  {
    hide CacheInv;
    if s.readyQueue != [] {
      NextFromReadyQueue(cfg, s);
    } else {
      NextFromMshrs(cfg, s);
    }
  }

  lemma InitialTags(cfg: Config)
    requires cfg.Valid()
    ensures TagsOk(cfg, InitialCache(cfg).tags)
  {
    NothingModified(InitialCache(cfg).tags.lines);
  }

  lemma InitialCacheInv(cfg: Config)
    requires Covered(cfg)
    ensures CacheInv(cfg, InitialCache(cfg))
  {
    hide TagsOk, Config.MshrAddr, InitialCache;
    InitialTags(cfg);
    InitialLines(cfg);
    var s := InitialCache(cfg);
    assert Waiting(s.hitQueue) == [];
  }

  lemma InitialLines(cfg: Config)
    requires cfg.Valid()
    ensures var s := InitialCache(cfg);
            && PinsExact(s.tags.lines, s.pending) && Clean(s.tags.lines)
            && SectorsOk(cfg, s.tags.lines, s.mshr, s.ready, s.pending)
            && s == s.(mshr := map[], ready := [], missQueue := [], hitQueue := [], readyQueue := [], extra := map[],
                       pending := map[])
  {
    var s := InitialCache(cfg);
    forall i | 0 <= i < |s.tags.lines|
      ensures PinnedAt(s.pending, i) == {}
    {
    }
  }

  lemma NothingModified(lines: seq<Block>)
    requires forall i :: 0 <= i < |lines| ==> !lines[i].IsModifiedLine()
    ensures CountModified(lines) == 0
  {
  }
}
