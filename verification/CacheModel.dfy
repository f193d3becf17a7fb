/** The read-only and data caches on values: tag array, MSHR table, miss queue,
    delayed hit responses and pins, for every write policy of the original.
    None stands for a failed assertion of the original. */
module CacheModel {
  import opened CacheTypes
  import opened Options
  import opened TagArrays

  datatype Packet =
    | ReadPacket(fetch: MemFetch, mshrAddr: nat)
    | WritePacket(write: MemFetch)
    | WriteBackPacket(evicted: Evicted)
  datatype HitEntry = HitEntry(mf: MemFetch, remaining: nat)
  datatype Extra = Extra(mshrAddr: nat, cacheIndex: nat)
  type MshrTable = map<nat, seq<MemFetch>>

  datatype CacheState = CacheState(
    tags: Tags, mshr: MshrTable, ready: seq<nat>, missQueue: seq<Packet>, hitQueue: seq<HitEntry>,
    readyQueue: seq<MemFetch>, extra: map<MemFetch, Extra>, pending: map<MemFetch, nat>, nextId: nat)

  datatype Outcome = Outcome(s: CacheState, status: RequestStatus)

  // What send_read_request reports back
  datatype ReadSent = ReadSent(s: CacheState, doMiss: bool, evicted: Option<Evicted>)

  function Asserting(c: bool): Option<()> { if c then Some(()) else None }

  // ---- queues and MSHRs ----

  predicate MissQueueFull(cfg: Config, s: CacheState, extraMisses: nat) {
    |s.missQueue| + extraMisses >= cfg.missQueueSize
  }

  predicate HitQueueFull(cfg: Config, s: CacheState) { |s.hitQueue| >= cfg.hitQueueSize }

  predicate MshrFull(cfg: Config, mshr: MshrTable, a: nat) {
    if a in mshr then |mshr[a]| >= cfg.mshrMaxMerge else |mshr| >= cfg.mshrEntries
  }

  // the guard shared by the write-allocate handlers: hit or miss, the MSHRs can take one more
  predicate MshrAccepts(cfg: Config, s: CacheState, a: nat) {
    !MshrFull(cfg, s.mshr, a) && (a in s.mshr || |s.missQueue| < cfg.missQueueSize)
  }

  function MshrAdd(mshr: MshrTable, a: nat, mf: MemFetch): MshrTable {
    mshr[a := (if a in mshr then mshr[a] else []) + [mf]]
  }

  predicate ReadAfterWritePending(q: seq<MemFetch>) {
    exists i, j :: 0 <= i < j < |q| && q[i].isWrite && !q[j].isWrite
  }

  function HitLatency(cfg: Config, mf: MemFetch): nat
    requires cfg.portWidth > 0
  {
    var cycles := mf.dataSize / cfg.portWidth + (if mf.dataSize % cfg.portWidth > 0 then 1 else 0);
    if cycles == 0 then 1 else cycles
  }

  // ---- steps on single lines ----

  function OnLine(tags: Tags, idx: nat, b: Block): (r: Tags)
    requires idx < |tags.lines|
    ensures |r.lines| == |tags.lines|
  {
    tags.(lines := tags.lines[idx := b])
  }

  function Pin(tags: Tags, idx: nat): (r: Tags)
    requires idx < |tags.lines|
    ensures |r.lines| == |tags.lines|
  {
    OnLine(tags, idx, tags.lines[idx].Pin())
  }

  predicate SectorFullyDirty(b: Block, sector: SectorId) {
    forall k | sector * SECTOR_SIZE <= k < (sector + 1) * SECTOR_SIZE :: k in b.dirtyBytes
  }

  // update_m_readable
  function UpdateReadable(cfg: Config, b: Block, mf: MemFetch): Block {
    if SectorFullyDirty(b, mf.sector) then b.SetReadable(true, cfg.SectorOf(mf)) else b
  }

  // inc_dirty, set_status(MODIFIED) and set_byte_mask
  function WriteInto(cfg: Config, tags: Tags, idx: nat, mf: MemFetch): (r: Tags)
    requires idx < |tags.lines|
    ensures |r.lines| == |tags.lines|
  {
    var b := tags.lines[idx];
    var written := b.SetStatus(MODIFIED, cfg.SectorOf(mf)).SetByteMask(mf.bytes);
    Tags(tags.lines[idx := written], if b.IsModifiedLine() then tags.dirty else tags.dirty + 1)
  }

  // tag_array::access for a fetch, with the assertion of its SECTOR_MISS case
  function TagAccess(cfg: Config, tags: Tags, idx: nat, mf: MemFetch, time: nat): (r: Option<AccessResult>)
    requires Sized(cfg, tags) && idx < |tags.lines|
    ensures r.Some? ==> Sized(cfg, r.value.tags) && r.value.idx < |tags.lines|
  {
    var r := AccessTags(cfg, tags, cfg.BlockAddr(mf.addr), time, cfg.SectorOf(mf), mf.isWrite);
    if r.status == SECTOR_MISS && cfg.cacheType != SECTOR then None
    else Some(if r.status == RESERVATION_FAIL then r.(idx := idx) else r)
  }

  // ---- baseline_cache ----

  function EnqueueHitResponse(cfg: Config, s: CacheState, mf: MemFetch, idx: nat): CacheState
    requires cfg.portWidth > 0 && idx < |s.tags.lines|
  {
    s.(tags := Pin(s.tags, idx), pending := s.pending[mf := idx],
       hitQueue := s.hitQueue + [HitEntry(mf, HitLatency(cfg, mf))])
  }

  function SendRead(cfg: Config, s: CacheState, mf: MemFetch, idx: nat, time: nat): (r: Option<ReadSent>)
    requires Sized(cfg, s.tags) && idx < |s.tags.lines|
    ensures r.Some? ==> Sized(cfg, r.value.s.tags)
  {
    var a := cfg.MshrAddr(mf.addr);
    if MshrAccepts(cfg, s, a) then
      var r :- TagAccess(cfg, s.tags, idx, mf, time);
      var _ :- Asserting(cfg.writePolicy == READ_ONLY ==> r.evicted.None?);
      var mshr := MshrAdd(s.mshr, a, mf);
      var _ :- Asserting(|mshr| <= cfg.mshrEntries && |mshr[a]| <= cfg.mshrMaxMerge);
      var s1 := s.(tags := Pin(r.tags, r.idx), mshr := mshr, pending := s.pending[mf := r.idx]);
      var s2 := if a in s.mshr then s1
                else s1.(extra := s.extra[mf := Extra(a, r.idx)], missQueue := s.missQueue + [ReadPacket(mf, a)]);
      Some(ReadSent(s2, true, r.evicted))
    else if MshrFull(cfg, s.mshr, a) then Some(ReadSent(s, false, None))
    else None
  }

  function SendWriteBack(cfg: Config, s: CacheState, evicted: Option<Evicted>): (r: CacheState)
    ensures r.tags == s.tags
  {
    if evicted.Some? && cfg.writePolicy != WRITE_THROUGH
    then s.(missQueue := s.missQueue + [WriteBackPacket(evicted.value)]) else s
  }

  // ---- write hits ----

  function WrHitWb(cfg: Config, s: CacheState, mf: MemFetch, idx: nat, time: nat): Option<Outcome>
    requires Sized(cfg, s.tags) && idx < |s.tags.lines|
  {
    var r :- TagAccess(cfg, s.tags, idx, mf, time);
    var _ :- Asserting(r.evicted.None?);
    var tags := WriteInto(cfg, r.tags, r.idx, mf);
    Some(Outcome(s.(tags := OnLine(tags, r.idx, UpdateReadable(cfg, tags.lines[r.idx], mf))), HIT))
  }

  function WrHitWt(cfg: Config, s: CacheState, mf: MemFetch, idx: nat, time: nat): Option<Outcome>
    requires Sized(cfg, s.tags) && idx < |s.tags.lines|
  {
    if MissQueueFull(cfg, s, 0) then Some(Outcome(s, RESERVATION_FAIL))
    else
      var o :- WrHitWb(cfg, s, mf, idx, time);
      Some(o.(s := o.s.(missQueue := s.missQueue + [WritePacket(mf)])))
  }

  function WrHitWe(cfg: Config, s: CacheState, mf: MemFetch, idx: nat): Option<Outcome>
    requires idx < |s.tags.lines|
  {
    if MissQueueFull(cfg, s, 0) then Some(Outcome(s, RESERVATION_FAIL))
    else
      var evicted := s.tags.lines[idx].SetStatus(INVALID, cfg.SectorOf(mf));
      Some(Outcome(s.(tags := OnLine(s.tags, idx, evicted), missQueue := s.missQueue + [WritePacket(mf)]), HIT))
  }

  function WrHit(cfg: Config, s: CacheState, mf: MemFetch, idx: nat, time: nat): Option<Outcome>
    requires Sized(cfg, s.tags) && idx < |s.tags.lines|
  {
    match cfg.writePolicy
    case READ_ONLY => None
    case WRITE_BACK => WrHitWb(cfg, s, mf, idx, time)
    case WRITE_THROUGH => WrHitWt(cfg, s, mf, idx, time)
    case WRITE_EVICT => WrHitWe(cfg, s, mf, idx)
    case LOCAL_WB_GLOBAL_WT => if mf.isGlobal then WrHitWe(cfg, s, mf, idx) else WrHitWb(cfg, s, mf, idx, time)
  }

  // ---- write misses ----

  // the read a write-allocate miss issues: a new fetch for the same sector
  function AllocateFetch(cfg: Config, s: CacheState, mf: MemFetch): MemFetch {
    MemFetch(Allocated(s.nextId), mf.addr, cfg.AtomSize(), false, false, mf.sector, mf.bytes)
  }

  function WrMissWriteAllocate(cfg: Config, s: CacheState, mf: MemFetch, idx: nat, time: nat,
                               probed: RequestStatus): Option<Outcome>
    requires Sized(cfg, s.tags) && idx < |s.tags.lines|
  {
    if MissQueueFull(cfg, s, 2) || !MshrAccepts(cfg, s, cfg.MshrAddr(mf.addr)) then Some(Outcome(s, RESERVATION_FAIL))
    else
      var sent := s.(missQueue := s.missQueue + [WritePacket(mf)], nextId := s.nextId + 1);
      var r :- SendRead(cfg, sent, AllocateFetch(cfg, s, mf), idx, time);
      if !r.doMiss then Some(Outcome(r.s, RESERVATION_FAIL))
      else
        var _ :- Asserting(r.evicted.Some? && cfg.writePolicy != WRITE_THROUGH ==> probed == MISS);
        Some(Outcome(SendWriteBack(cfg, r.s, r.evicted), MISS))
  }

  // the part of FETCH_ON_WRITE that fetches the rest of the sector
  function FetchAndMark(cfg: Config, s: CacheState, mf: MemFetch, idx: nat, time: nat): Option<Outcome>
    requires Sized(cfg, s.tags) && idx < |s.tags.lines|
  {
    var r :- SendRead(cfg, s.(nextId := s.nextId + 1), AllocateFetch(cfg, s, mf), idx, time);
    var b := r.s.tags.lines[idx].SetModifiedOnFill(true, cfg.SectorOf(mf)).SetByteMaskOnFill(true);
    var s1 := r.s.(tags := OnLine(r.s.tags, idx, b));
    if r.doMiss then Some(Outcome(SendWriteBack(cfg, s1, r.evicted), MISS))
    else Some(Outcome(s1, RESERVATION_FAIL))
  }

  function WrMissFetchOnWrite(cfg: Config, s: CacheState, mf: MemFetch, idx: nat, time: nat): Option<Outcome>
    requires Sized(cfg, s.tags) && idx < |s.tags.lines|
  {
    if |mf.bytes| == cfg.AtomSize() then
      if MissQueueFull(cfg, s, 0) then Some(Outcome(s, RESERVATION_FAIL))
      else
        var r :- TagAccess(cfg, s.tags, idx, mf, time);
        var _ :- Asserting(r.status != HIT);
        var s1 := s.(tags := WriteInto(cfg, r.tags, r.idx, mf));
        if r.status == RESERVATION_FAIL then Some(Outcome(s1, RESERVATION_FAIL))
        else Some(Outcome(SendWriteBack(cfg, s1, r.evicted), MISS))
    else
      var a := cfg.MshrAddr(mf.addr);
      if MissQueueFull(cfg, s, 1) || !MshrAccepts(cfg, s, a) then Some(Outcome(s, RESERVATION_FAIL))
      else if a in s.mshr && ReadAfterWritePending(s.mshr[a]) && mf.isWrite then Some(Outcome(s, RESERVATION_FAIL))
      else FetchAndMark(cfg, s, mf, idx, time)
  }

  // the on-fill and readable flags a lazy write miss leaves
  function LazyFlags(cfg: Config, b: Block, mf: MemFetch, status: RequestStatus): Block {
    var sec := cfg.SectorOf(mf);
    var b1 := if status == HIT_RESERVED then b.SetModifiedOnFill(true, sec).SetByteMaskOnFill(true) else b;
    if |mf.bytes| == cfg.AtomSize() then b1.SetReadable(true, sec)
    else if status == HIT_RESERVED then b1.SetReadable(false, sec).SetReadableOnFill(true, sec)
    else b1.SetReadable(false, sec)
  }

  // What a lazy write miss does to its line after the tags were accessed
  function LazyBlock(cfg: Config, b: Block, mf: MemFetch, status: RequestStatus): Block {
    var written := b.SetStatus(MODIFIED, cfg.SectorOf(mf)).SetByteMask(mf.bytes);
    UpdateReadable(cfg, LazyFlags(cfg, written, mf, status), mf)
  }

  function LazyWrite(cfg: Config, tags: Tags, idx: nat, mf: MemFetch, status: RequestStatus): (r: Tags)
    requires idx < |tags.lines|
    ensures |r.lines| == |tags.lines|
  {
    var b := tags.lines[idx];
    Tags(tags.lines[idx := LazyBlock(cfg, b, mf, status)], if b.IsModifiedLine() then tags.dirty else tags.dirty + 1)
  }

  function WrMissLazy(cfg: Config, s: CacheState, mf: MemFetch, idx: nat, time: nat): Option<Outcome>
    requires Sized(cfg, s.tags) && idx < |s.tags.lines|
  {
    if MissQueueFull(cfg, s, 0) then Some(Outcome(s, RESERVATION_FAIL))
    else
      var queue := if cfg.writePolicy == WRITE_THROUGH then s.missQueue + [WritePacket(mf)] else s.missQueue;
      var r :- TagAccess(cfg, s.tags, idx, mf, time);
      var _ :- Asserting(r.status != HIT);
      var s1 := s.(tags := LazyWrite(cfg, r.tags, r.idx, mf, r.status), missQueue := queue);
      if r.status == RESERVATION_FAIL then Some(Outcome(s1, RESERVATION_FAIL))
      else Some(Outcome(SendWriteBack(cfg, s1, r.evicted), MISS))
  }

  function WrMissNoAllocate(cfg: Config, s: CacheState, mf: MemFetch): Option<Outcome> {
    if MissQueueFull(cfg, s, 0) then Some(Outcome(s, RESERVATION_FAIL))
    else Some(Outcome(s.(missQueue := s.missQueue + [WritePacket(mf)]), MISS))
  }

  function WrMiss(cfg: Config, s: CacheState, mf: MemFetch, idx: nat, time: nat, probed: RequestStatus): Option<Outcome>
    requires Sized(cfg, s.tags) && idx < |s.tags.lines|
  {
    match cfg.writeAllocate
    case NO_WRITE_ALLOCATE => WrMissNoAllocate(cfg, s, mf)
    case WRITE_ALLOCATE => WrMissWriteAllocate(cfg, s, mf, idx, time, probed)
    case FETCH_ON_WRITE => WrMissFetchOnWrite(cfg, s, mf, idx, time)
    case LAZY_FETCH_ON_READ => WrMissLazy(cfg, s, mf, idx, time)
  }

  // ---- reads ----

  function RdHit(cfg: Config, s: CacheState, mf: MemFetch, idx: nat, time: nat): Option<Outcome>
    requires Sized(cfg, s.tags) && idx < |s.tags.lines|
  {
    var r :- TagAccess(cfg, s.tags, idx, mf, time);
    var _ :- Asserting(r.evicted.None?);
    Some(Outcome(s.(tags := r.tags), HIT))
  }

  function RdMiss(cfg: Config, s: CacheState, mf: MemFetch, idx: nat, time: nat): Option<Outcome>
    requires Sized(cfg, s.tags) && idx < |s.tags.lines|
  {
    if MissQueueFull(cfg, s, 1) then Some(Outcome(s, RESERVATION_FAIL))
    else
      var r :- SendRead(cfg, s, mf, idx, time);
      if r.doMiss then Some(Outcome(SendWriteBack(cfg, r.s, r.evicted), MISS))
      else Some(Outcome(r.s, RESERVATION_FAIL))
  }

  // ---- access ----

  function ProbeFor(cfg: Config, s: CacheState, mf: MemFetch): (p: ProbeResult)
    requires Sized(cfg, s.tags)
    ensures p.idx < |s.tags.lines|
  {
    ProbeTags(cfg, s.tags, cfg.BlockAddr(mf.addr), cfg.SectorOf(mf), mf.isWrite)
  }

  function Dispatch(cfg: Config, s: CacheState, mf: MemFetch, time: nat, p: ProbeResult): Option<Outcome>
    requires Sized(cfg, s.tags) && p.idx < |s.tags.lines|
  {
    if mf.isWrite then
      if p.status == HIT then WrHit(cfg, s, mf, p.idx, time)
      else if p.status != RESERVATION_FAIL || cfg.writeAllocate == NO_WRITE_ALLOCATE then
        WrMiss(cfg, s, mf, p.idx, time, p.status)
      else Some(Outcome(s, RESERVATION_FAIL))
    else
      if p.status == HIT then RdHit(cfg, s, mf, p.idx, time)
      else if p.status != RESERVATION_FAIL then RdMiss(cfg, s, mf, p.idx, time)
      else Some(Outcome(s, RESERVATION_FAIL))
  }

  function DataAccess(cfg: Config, s: CacheState, mf: MemFetch, time: nat): Option<Outcome>
    requires Sized(cfg, s.tags)
  {
    var p := ProbeFor(cfg, s, mf);
    if p.status == HIT && HitQueueFull(cfg, s) then Some(Outcome(s, RESERVATION_FAIL))
    else
      var o :- Dispatch(cfg, s, mf, time, p);
      if p.status == HIT && o.status == HIT then
        if p.idx < |o.s.tags.lines| then Some(Outcome(EnqueueHitResponse(cfg, o.s, mf, p.idx), HIT)) else None
      else Some(o)
  }

  function ReadOnlyAccess(cfg: Config, s: CacheState, mf: MemFetch, time: nat): Option<Outcome>
    requires Sized(cfg, s.tags)
  {
    var p := ProbeFor(cfg, s, mf);
    if p.status == HIT then
      if HitQueueFull(cfg, s) then Some(Outcome(s, RESERVATION_FAIL))
      else
        var r :- TagAccess(cfg, s.tags, p.idx, mf, time);
        var _ :- Asserting(r.evicted.None?);
        var s1 := s.(tags := r.tags);
        Some(Outcome(if r.status == HIT then EnqueueHitResponse(cfg, s1, mf, p.idx) else s1, r.status))
    else if p.status != RESERVATION_FAIL && !MissQueueFull(cfg, s, 0) then
      var r :- SendRead(cfg, s, mf, p.idx, time);
      Some(Outcome(r.s, if r.doMiss then MISS else RESERVATION_FAIL))
    else Some(Outcome(s, RESERVATION_FAIL))
  }

  function CacheAccess(cfg: Config, s: CacheState, mf: MemFetch, time: nat): Option<Outcome>
    requires Sized(cfg, s.tags)
  {
    if mf.dataSize > cfg.AtomSize() then None
    else if cfg.writePolicy == READ_ONLY then
      if mf.isWrite then None else ReadOnlyAccess(cfg, s, mf, time)
    else DataAccess(cfg, s, mf, time)
  }

  // ---- cycle, fill, next_access ----

  // hit responses with more cycles to wait, one cycle later
  function StillWaiting(q: seq<HitEntry>): seq<HitEntry> {
    if q == [] then []
    else (if q[0].remaining > 1 then [HitEntry(q[0].mf, q[0].remaining - 1)] else []) + StillWaiting(q[1..])
  }

  // hit responses whose last cycle this is
  function Expired(q: seq<HitEntry>): seq<MemFetch> {
    if q == [] then [] else (if q[0].remaining > 1 then [] else [q[0].mf]) + Expired(q[1..])
  }

  function CacheCycle(s: CacheState, memFull: bool): Option<CacheState> {
    if exists i :: 0 <= i < |s.hitQueue| && s.hitQueue[i].remaining == 0 then None
    else
      Some(s.(hitQueue := StillWaiting(s.hitQueue), readyQueue := s.readyQueue + Expired(s.hitQueue),
              missQueue := if s.missQueue == [] || memFull then s.missQueue else s.missQueue[1..]))
  }

  function CacheFill(cfg: Config, s: CacheState, mf: MemFetch): Option<CacheState> {
    if mf !in s.extra || s.extra[mf].cacheIndex >= |s.tags.lines| then None
    else
      var e := s.extra[mf];
      if e.mshrAddr !in s.mshr || |s.ready| + 1 > |s.mshr| then None
      else
        Some(s.(tags := FillTags(cfg, s.tags, e.cacheIndex, cfg.SectorOf(mf), mf.bytes),
                ready := s.ready + [e.mshrAddr], extra := s.extra - {mf}))
  }

  function Unpin(s: CacheState, mf: MemFetch): Option<CacheState> {
    if mf !in s.pending then Some(s)
    else if s.pending[mf] >= |s.tags.lines| || !s.tags.lines[s.pending[mf]].IsPinned() then None
    else
      var i := s.pending[mf];
      Some(s.(tags := OnLine(s.tags, i, s.tags.lines[i].Unpin()), pending := s.pending - {mf}))
  }

  datatype Delivery = Delivery(s: CacheState, mf: MemFetch)

  function TakeResponse(s: CacheState): Option<Delivery> {
    if s.readyQueue != [] then Some(Delivery(s.(readyQueue := s.readyQueue[1..]), s.readyQueue[0]))
    else if s.ready == [] || s.ready[0] !in s.mshr || s.mshr[s.ready[0]] == [] then None
    else
      var a := s.ready[0];
      var q := s.mshr[a];
      Some(Delivery(if |q| == 1 then s.(mshr := s.mshr - {a}, ready := s.ready[1..])
                    else s.(mshr := s.mshr[a := q[1..]]), q[0]))
  }

  function CacheNext(s: CacheState): Option<Delivery> {
    var d :- TakeResponse(s);
    var s' :- Unpin(d.s, d.mf);
    Some(Delivery(s', d.mf))
  }

  predicate AccessReady(s: CacheState) { s.readyQueue != [] || s.ready != [] }

  function InitialCache(cfg: Config): CacheState {
    CacheState(Tags(seq(cfg.NumLines(), _ => INITIAL_BLOCK), 0), map[], [], [], [], [], map[], map[], 0)
  }
}
