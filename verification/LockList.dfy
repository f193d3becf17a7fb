/** The load-locked list of a gem5 cache block, and what it means over any history
    of load-locked requests, stores, store-conditionals and invalidations. */
module LockList {

  const ADDRESSES := 0x1_0000_0000_0000_0000

  // addr + size - 1 is computed in 64 bits
  datatype Request = Request(context: int, addr: nat, size: nat) {
    function High(): nat { (addr + size + ADDRESSES - 1) % ADDRESSES }

    // at least one byte, and no wrap around the address space
    predicate Proper() { size >= 1 && addr + size <= ADDRESSES }
  }

  datatype Lock = Lock(context: int, low: nat, high: nat)

  function LockOf(req: Request): Lock { Lock(req.context, req.addr, req.High()) }

  predicate Overlap(l: Lock, m: Lock) { l.low <= m.high && m.low <= l.high }

  predicate Intersects(l: Lock, req: Request) { Overlap(l, LockOf(req)) }

  predicate Covers(l: Lock, req: Request) { l.low <= req.addr && req.High() <= l.high }

  predicate Matches(l: Lock, req: Request) { l.context == req.context && Covers(l, req) }

  // ---- the list operations ----

  // a lock that a request removes; a store spares the locks of its own context
  predicate Hit(l: Lock, req: Request, store: bool) {
    Intersects(l, req) && (store ==> l.context != req.context)
  }

  function Unhit(locks: seq<Lock>, req: Request, store: bool): seq<Lock> {
    if locks == [] then []
    else (if Hit(locks[0], req, store) then [] else [locks[0]]) + Unhit(locks[1..], req, store)
  }

  function Tracked(locks: seq<Lock>, req: Request): seq<Lock> { [LockOf(req)] + Unhit(locks, req, false) }

  predicate HasMatch(locks: seq<Lock>, req: Request) { exists l :: l in locks && Matches(l, req) }

  function WithoutMatch(locks: seq<Lock>, req: Request): seq<Lock> {
    if locks == [] then []
    else if Matches(locks[0], req) then locks[1..]
    else [locks[0]] + WithoutMatch(locks[1..], req)
  }

  function Stored(locks: seq<Lock>, req: Request, llsc: bool): seq<Lock> {
    Unhit(if llsc then WithoutMatch(locks, req) else locks, req, true)
  }

  predicate StoreProceeds(locks: seq<Lock>, req: Request, llsc: bool) { llsc ==> HasMatch(locks, req) }

  // ---- the block ----

  lemma {:induction false} UnhitOfSum(a: seq<Lock>, b: seq<Lock>, req: Request, store: bool)
    ensures Unhit(a + b, req, store) == Unhit(a, req, store) + Unhit(b, req, store)
  {
    if a == [] {
      assert a + b == b;
    } else {
      assert (a + b)[1..] == a[1..] + b;
      UnhitOfSum(a[1..], b, req, store);
    }
  }

  lemma {:induction false} NoMatchBefore(a: seq<Lock>, b: seq<Lock>, req: Request)
    requires forall l :: l in a ==> !Matches(l, req)
    ensures WithoutMatch(a + b, req) == a + WithoutMatch(b, req)
    ensures HasMatch(a + b, req) <==> HasMatch(b, req)
  {
    if a == [] {
      assert a + b == b;
    } else {
      assert (a + b)[1..] == a[1..] + b;
      NoMatchBefore(a[1..], b, req);
    }
  }

  class LockedBlock {
    var lockList: seq<Lock>

    constructor ()
      ensures lockList == []
    {
      lockList := [];
    }

    // the part of invalidate() that concerns the locks
    method Invalidate()
      modifies this
      ensures lockList == []
    {
      lockList := [];
    }

    // erase, in place, every lock that the request hits
    method EraseHit(req: Request, store: bool)
      modifies this
      ensures lockList == Unhit(old(lockList), req, store)
    {
      var l := 0;
      while l < |lockList|
        invariant 0 <= l <= |lockList|
        invariant lockList[..l] + Unhit(lockList[l..], req, store) == Unhit(old(lockList), req, store)
        decreases |lockList| - l
      {
        if Hit(lockList[l], req, store) {
          lockList := lockList[..l] + lockList[l + 1..];
        } else {
          assert lockList[..l + 1] == lockList[..l] + [lockList[l]];
          l := l + 1;
        }
      }
    }

    method TrackLoadLocked(req: Request)
      modifies this
      ensures lockList == Tracked(old(lockList), req)
    {
      EraseHit(req, false);
      lockList := [LockOf(req)] + lockList;
    }

    method ClearLoadLocks(req: Request)
      modifies this
      ensures lockList == Unhit(old(lockList), req, true)
    {
      EraseHit(req, true);
    }

    // false only for a failed store-conditional
    method CheckWrite(req: Request, llsc: bool) returns (proceed: bool)
      modifies this
      ensures lockList == Stored(old(lockList), req, llsc)
      ensures proceed == StoreProceeds(old(lockList), req, llsc)
      ensures !llsc ==> proceed
    {
      if !llsc && lockList == [] {
        return true;
      }
      if llsc {
        var success := false;
        var l := 0;
        while !success && l < |lockList|
          invariant 0 <= l <= |lockList|
          invariant !success ==> lockList == old(lockList) && forall m :: m in lockList[..l] ==> !Matches(m, req)
          invariant success ==> lockList == WithoutMatch(old(lockList), req) && HasMatch(old(lockList), req)
          decreases !success, |lockList| - l
        {
          if Matches(lockList[l], req) {
            success := true;
            assert lockList == lockList[..l] + lockList[l..];
            NoMatchBefore(lockList[..l], lockList[l..], req);
            assert lockList[l..][0] == lockList[l];
            lockList := lockList[..l] + lockList[l + 1..];
          } else {
            l := l + 1;
          }
        }
        if !success {
          assert lockList == lockList[..l] + [];
          NoMatchBefore(lockList[..l], [], req);
        }
        ClearLoadLocks(req);
        return success;
      } else {
        ClearLoadLocks(req);
        return true;
      }
    }
  }

  // ---- histories ----

  datatype Event = LoadLocked(req: Request) | Write(req: Request) | StoreConditional(req: Request) | Invalidation

  predicate ProperEvent(e: Event) { e.Invalidation? || e.req.Proper() }

  ghost predicate ProperHistory(es: seq<Event>) { forall i :: 0 <= i < |es| ==> ProperEvent(es[i]) }

  function Step(locks: seq<Lock>, e: Event): seq<Lock> {
    match e
    case LoadLocked(req) => Tracked(locks, req)
    case Write(req) => Stored(locks, req, false)
    case StoreConditional(req) => Stored(locks, req, true)
    case Invalidation => []
  }

  function Run(es: seq<Event>): seq<Lock> {
    if es == [] then [] else Step(Run(es[..|es| - 1]), es[|es| - 1])
  }

  // what ends a reservation
  predicate Breaks(e: Event, l: Lock) {
    match e
    case LoadLocked(req) => Intersects(l, req)
    case Write(req) => req.context != l.context && Intersects(l, req)
    case StoreConditional(req) => if req.context == l.context then Covers(l, req) else Intersects(l, req)
    case Invalidation => true
  }

  // event i made a reservation that nothing since has ended
  ghost predicate Live(es: seq<Event>, i: nat)
    requires i < |es|
  {
    es[i].LoadLocked? && forall j :: i < j < |es| ==> !Breaks(es[j], LockOf(es[i].req))
  }

  // ---- pairwise disjoint locks ----

  ghost predicate Disjoint(locks: seq<Lock>) {
    locks == [] || ((forall m :: m in locks[1..] ==> !Overlap(locks[0], m)) && Disjoint(locks[1..]))
  }

  lemma {:induction false} UnhitKeeps(locks: seq<Lock>, req: Request, store: bool)
    requires Disjoint(locks)
    ensures Disjoint(Unhit(locks, req, store))
    ensures forall l :: l in Unhit(locks, req, store) <==> l in locks && !Hit(l, req, store)
  {
    if locks != [] {
      UnhitKeeps(locks[1..], req, store);
      assert locks == [locks[0]] + locks[1..];
      assert Hit(locks[0], req, store) ==> Unhit(locks, req, store) == Unhit(locks[1..], req, store);
      assert !Hit(locks[0], req, store) ==> Unhit(locks, req, store)[1..] == Unhit(locks[1..], req, store);
    }
  }

  // a request lies in at most one of disjoint locks, so erasing the first match erases them all
  lemma {:induction false} WithoutMatchKeeps(locks: seq<Lock>, req: Request)
    requires Disjoint(locks) && req.Proper()
    ensures Disjoint(WithoutMatch(locks, req))
    ensures forall l :: l in WithoutMatch(locks, req) <==> l in locks && !Matches(l, req)
  {
    if locks != [] {
      WithoutMatchKeeps(locks[1..], req);
      assert locks == [locks[0]] + locks[1..];
      if !Matches(locks[0], req) {
        assert WithoutMatch(locks, req)[1..] == WithoutMatch(locks[1..], req);
      }
    }
  }

  lemma TrackedKeeps(locks: seq<Lock>, req: Request)
    requires Disjoint(locks)
    ensures Disjoint(Tracked(locks, req))
    ensures forall l :: l in Tracked(locks, req) <==> l == LockOf(req) || (l in locks && !Intersects(l, req))
  {
    UnhitKeeps(locks, req, false);
    assert Tracked(locks, req)[1..] == Unhit(locks, req, false);
  }

  lemma StepKeepsDisjoint(locks: seq<Lock>, e: Event)
    requires Disjoint(locks) && ProperEvent(e)
    ensures Disjoint(Step(locks, e))
  {
    match e {
      case LoadLocked(req) => TrackedKeeps(locks, req);
      case Write(req) => UnhitKeeps(locks, req, true);
      case StoreConditional(req) =>
        WithoutMatchKeeps(locks, req);
        UnhitKeeps(WithoutMatch(locks, req), req, true);
      case Invalidation =>
    }
  }

  // which locks a step leaves: the new reservation, and the unbroken old ones
  lemma StepBreaks(locks: seq<Lock>, e: Event, l: Lock)
    requires Disjoint(locks) && ProperEvent(e)
    ensures l in Step(locks, e) <==> (e.LoadLocked? && l == LockOf(e.req)) || (l in locks && !Breaks(e, l))
  {
    match e {
      case LoadLocked(req) => TrackedKeeps(locks, req);
      case Write(req) => UnhitKeeps(locks, req, true);
      case StoreConditional(req) =>
        WithoutMatchKeeps(locks, req);
        UnhitKeeps(WithoutMatch(locks, req), req, true);
      case Invalidation =>
    }
  }

  ghost predicate Reserved(es: seq<Event>, l: Lock) {
    exists i :: 0 <= i < |es| && Live(es, i) && LockOf(es[i].req) == l
  }

  lemma ReservedAfter(es: seq<Event>, l: Lock)
    requires es != []
    ensures var (before, e) := (es[..|es| - 1], es[|es| - 1]);
      Reserved(es, l) <==> (e.LoadLocked? && l == LockOf(e.req)) || (Reserved(before, l) && !Breaks(e, l))
  {
    var n := |es| - 1;
    var (before, e) := (es[..n], es[n]);
    if Reserved(es, l) {
      var i :| 0 <= i < |es| && Live(es, i) && LockOf(es[i].req) == l;
      if i < n {
        assert Live(before, i) && before[i] == es[i];
      }
    }
    if Reserved(before, l) && !Breaks(e, l) {
      var i :| 0 <= i < n && Live(before, i) && LockOf(before[i].req) == l;
      assert Live(es, i) by {
        assert forall j :: i < j < n ==> es[j] == before[j];
      }
    }
    if e.LoadLocked? && l == LockOf(e.req) {
      assert Live(es, n);
    }
  }

  /** In every reachable list the locks have pairwise disjoint ranges, and a lock is
      there exactly when a load-locked request made it and nothing since broke it. */
  lemma {:induction false} LocksAreReservations(es: seq<Event>)
    requires ProperHistory(es)
    ensures Disjoint(Run(es))
    ensures forall l :: l in Run(es) <==> Reserved(es, l)
  {
    if es != [] {
      var n := |es| - 1;
      LocksAreReservations(es[..n]);
      StepKeepsDisjoint(Run(es[..n]), es[n]);
      forall l
        ensures l in Run(es) <==> Reserved(es, l)
      {
        StepBreaks(Run(es[..n]), es[n], l);
        ReservedAfter(es, l);
      }
    }
  }

  /** A store-conditional succeeds exactly when its context made a load-locked
      request covering it since which there was no invalidation, no intersecting
      load-locked request, no intersecting store or store-conditional of another
      context, and no store-conditional of its own within that range. */
  lemma StoreConditionalSucceedsExactlyWhen(es: seq<Event>, req: Request)
    requires ProperHistory(es)
    ensures StoreProceeds(Run(es), req, true) <==>
      exists i :: 0 <= i < |es| && Live(es, i) && es[i].req.context == req.context && Covers(LockOf(es[i].req), req)
  {
    LocksAreReservations(es);
    if HasMatch(Run(es), req) {
      var l :| l in Run(es) && Matches(l, req);
      assert Reserved(es, l);
      var i :| 0 <= i < |es| && Live(es, i) && LockOf(es[i].req) == l;
    }
    if i :| 0 <= i < |es| && Live(es, i) && es[i].req.context == req.context && Covers(LockOf(es[i].req), req) {
      assert Reserved(es, LockOf(es[i].req));
      assert Matches(LockOf(es[i].req), req);
    }
  }

  /** Over any history a plain store proceeds whatever is locked, and a store-conditional
      exactly under such a reservation. */
  lemma WriteProceedsExactlyWhen(es: seq<Event>, req: Request, llsc: bool)
    requires ProperHistory(es)
    ensures !llsc ==> StoreProceeds(Run(es), req, llsc)
    ensures llsc ==> (StoreProceeds(Run(es), req, llsc) <==>
      exists i :: 0 <= i < |es| && Live(es, i) && es[i].req.context == req.context && Covers(LockOf(es[i].req), req))
  {
    hide Intersects, Covers, Request.High, Run, LockOf;
    StoreConditionalSucceedsExactlyWhen(es, req);
  }

  lemma SameBytesBreak(e: Event, l: Lock, req: Request)
    requires e.StoreConditional? && e.req.Proper() && e.req.addr == req.addr && e.req.size == req.size
    requires Covers(l, req)
    ensures Breaks(e, l)
  {
    assert e.req.High() == req.High() == req.addr + req.size - 1;
  }

  /** After any store-conditional, successful or not, one to the same bytes fails,
      whichever its context, until there is another load-locked request. */
  lemma StoreConditionalsNeedReservations(es: seq<Event>, k: nat, req: Request)
    requires ProperHistory(es) && k < |es| && es[k].StoreConditional?
    requires es[k].req.addr == req.addr && es[k].req.size == req.size
    requires forall j :: k < j < |es| ==> !es[j].LoadLocked?
    ensures !StoreProceeds(Run(es), req, true)
  {
    hide Intersects, Covers, Request.High, Run, StoreProceeds, LockOf;
    StoreConditionalSucceedsExactlyWhen(es, req);
    assert ProperEvent(es[k]);
    if i :| 0 <= i < |es| && Live(es, i) && es[i].req.context == req.context && Covers(LockOf(es[i].req), req) {
      SameBytesBreak(es[k], LockOf(es[i].req), req);
    }
  }
}
