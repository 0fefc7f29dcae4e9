/** HandleAllocator: a watermark below which every handle has been handed out at least
    once, and the set of those that came back. A slave server replays its parent's
    allocations with `take`. */
module HandleAllocator {
  import opened Util

  /** `next` is the watermark `_handle`; `limit` is the invalid handle value, the largest
      of the handle's integer type. */
  datatype Pool = Pool(next: nat, free: set<nat>, limit: nat) {
    predicate Valid() {
      next <= limit && forall h | h in free :: h < next
    }

    predicate Live(h: nat) { h < next && h !in free }
  }

  function LiveSet(p: Pool): set<nat> { Range(0, p.next) - p.free }

  /** Exhausted: nothing came back and the watermark is the invalid handle. */
  predicate Empty(p: Pool) { p.free == {} && p.next == p.limit }

  ghost function NextHandle(p: Pool): nat { if p.free == {} then p.next else Least(p.free) }

  ghost function AfterGet(p: Pool): Pool {
    if p.free == {} then p.(next := p.next + 1) else p.(free := p.free - {Least(p.free)})
  }

  /** Taking a handle from beyond the watermark leaves those it jumps over free. */
  function AfterTake(p: Pool, h: nat): Pool {
    if h >= p.limit then p
    else if h in p.free then p.(free := p.free - {h})
    else p.(free := p.free + Range(p.next, h), next := h + 1)
  }

  function AfterPut(p: Pool, h: nat): Pool {
    if h >= p.limit then p else p.(free := p.free + {h})
  }

  /** The watermark steps over a handle, which becomes free. */
  function SteppedOver(p: Pool): Pool { p.(free := p.free + {p.next}, next := p.next + 1) }

  /** The three ways a turn of `take` can go. */
  lemma TakeOneOver(p: Pool, h: nat)
    requires p.Valid() && p.next < h < p.limit && h !in p.free
    ensures SteppedOver(p).Valid() && h !in SteppedOver(p).free
    ensures AfterTake(p, h) == AfterTake(SteppedOver(p), h)
  {
    SteppedValid(p, h);
    hide Range, Pool.Valid, AfterTake;
    RangeStart(p.next, h);
    Regrouped(p.free, p.next, Range(p.next + 1, h));
    TakeBeyond(p, h);
    TakeBeyond(SteppedOver(p), h);
  }

  lemma TakeBeyond(p: Pool, h: nat)
    requires p.next <= h < p.limit && h !in p.free
    ensures AfterTake(p, h) == p.(free := p.free + Range(p.next, h), next := h + 1)
  {}

  lemma SteppedValid(p: Pool, h: nat)
    requires p.Valid() && p.next < h < p.limit && h !in p.free
    ensures SteppedOver(p).Valid() && h !in SteppedOver(p).free
  {}

  lemma Regrouped(a: set<nat>, x: nat, b: set<nat>)
    ensures a + ({x} + b) == (a + {x}) + b
  {}

  lemma RangeStart(lo: nat, hi: nat)
    requires lo < hi
    ensures Range(lo, hi) == {lo} + Range(lo + 1, hi)
  {}

  lemma TakeAtWatermark(p: Pool)
    requires p.Valid() && p.next < p.limit && p.next !in p.free
    ensures AfterTake(p, p.next) == p.(next := p.next + 1)
  {
    assert p.free + Range(p.next, p.next) == p.free;
  }

  lemma TakeFree(p: Pool, h: nat)
    requires h in p.free && h < p.limit
    ensures AfterTake(p, h) == p.(free := p.free - {h})
  {}

  class Allocator {
    const limit: nat
    var handle: nat
    var handleSet: set<nat>

    ghost function View(): Pool
      reads this
    {
      Pool(handle, handleSet, limit)
    }

    constructor (limit: nat)
      requires limit > 0
      ensures View() == Pool(0, {}, limit) && View().Valid()
    {
      this.limit := limit;
      handle, handleSet := 0, {};
    }

    /** The source asserts that a handle which did not come back is at or above the
        watermark, that is, not live. */
    method Take(h: nat)
      requires View().Valid() && h <= limit && !View().Live(h)
      modifies this
      ensures View() == AfterTake(old(View()), h) && View().Valid()
    {
      if h == limit { return; }
      TakeKeepsValid(View(), h);
      if h in handleSet {
        TakeFree(View(), h);
        handleSet := handleSet - {h};
        return;
      }
      TakeFromWatermark(h);
    }

    /** Frees what it jumps over. */
    method TakeFromWatermark(h: nat)
      requires View().Valid() && handle <= h < limit && h !in handleSet
      modifies this
      ensures View() == AfterTake(old(View()), h)
    {
      hide AfterTake, Pool.Valid;
      while handle < h
        invariant handle <= h && h !in handleSet && View().Valid()
        invariant AfterTake(View(), h) == AfterTake(old(View()), h)
      {
        TakeOneOver(View(), h);
        handleSet := handleSet + {handle};
        handle := handle + 1;
      }
      TakeAtWatermark(View());
      handle := handle + 1;
    }

    /** `None` is the ResourceError thrown when all handle values are in use. */
    method Get() returns (h: Option<nat>)
      requires View().Valid()
      modifies this
      ensures Empty(old(View())) ==> h == None && View() == old(View())
      ensures !Empty(old(View())) ==> h == Some(NextHandle(old(View()))) && View() == AfterGet(old(View()))
      ensures View().Valid()
    {
      if handleSet == {} {
        if handle == limit { return None; }
        h := Some(handle);
        handle := handle + 1;
        return;
      }
      var first := FirstHandle(handleSet);
      handleSet := handleSet - {first};
      h := Some(first);
    }

    method GetOrTake(wanted: nat) returns (h: Option<nat>)
      requires View().Valid() && wanted <= limit && !View().Live(wanted)
      modifies this
      ensures wanted < limit ==> h == Some(wanted) && View() == AfterTake(old(View()), wanted)
      ensures wanted == limit && Empty(old(View())) ==> h == None && View() == old(View())
      ensures wanted == limit && !Empty(old(View())) ==>
                h == Some(NextHandle(old(View()))) && View() == AfterGet(old(View()))
      ensures View().Valid()
    {
      if wanted == limit {
        h := Get();
      } else {
        Take(wanted);
        h := Some(wanted);
      }
    }

    /** Nothing checks that the handle was in use: putting back a free one changes nothing,
        and one from beyond the watermark breaks the pool. */
    method Put(h: nat)
      requires View().Valid() && h <= limit
      modifies this
      ensures View() == AfterPut(old(View()), h)
      ensures View().Valid() <==> h < old(View()).next || h == limit
    {
      if h == limit { return; }
      handleSet := handleSet + {h};
    }

    /** True exactly when some handle is in use. */
    method Used() returns (used: bool)
      requires View().Valid()
      ensures used <==> exists h :: View().Live(h)
    {
      LiveCount(View());
      used := |handleSet| < handle;
      assert forall h: nat :: View().Live(h) <==> h in LiveSet(View());
      if used {
        ghost var h :| h in LiveSet(View());
        assert View().Live(h);
      } else {
        assert LiveSet(View()) == {};
      }
    }
  }

  // ------------------------------------------------------------------- single requests

  /** Free and live handles make up everything below the watermark. */
  lemma LiveCount(p: Pool)
    requires p.Valid()
    ensures |LiveSet(p)| == p.next - |p.free|
  {
    assert p.free <= Range(0, p.next);
  }

  /** `get` hands out the least handle that is not in use, and makes it live; it has none
      to give exactly when every valid handle is live. */
  lemma GetGivesLeast(p: Pool)
    requires p.Valid()
    ensures Empty(p) <==> forall h | 0 <= h < p.limit :: p.Live(h)
    ensures !Empty(p) ==>
              && !p.Live(NextHandle(p)) && NextHandle(p) < p.limit
              && (forall h | 0 <= h < NextHandle(p) :: p.Live(h))
              && LiveSet(AfterGet(p)) == LiveSet(p) + {NextHandle(p)}
              && AfterGet(p).Valid()
  {
    var m := NextHandle(p);
    assert !p.Live(m);
    forall h | 0 <= h < m ensures p.Live(h) {
      assert h !in p.free;
    }
    if !Empty(p) { GetAddsLive(p); }
  }

  lemma GetAddsLive(p: Pool)
    requires p.Valid() && !Empty(p)
    ensures LiveSet(AfterGet(p)) == LiveSet(p) + {NextHandle(p)}
  {
    var q := AfterGet(p);
    forall x ensures x in LiveSet(q) <==> x in LiveSet(p) || x == NextHandle(p) {}
  }

  lemma TakeKeepsValid(p: Pool, h: nat)
    requires p.Valid() && !p.Live(h)
    ensures AfterTake(p, h).Valid()
  {}

  lemma TakeAddsLive(p: Pool, h: nat)
    requires p.Valid() && h < p.limit && !p.Live(h)
    ensures AfterTake(p, h).Valid() && LiveSet(AfterTake(p, h)) == LiveSet(p) + {h}
  {
    var q := AfterTake(p, h);
    forall x ensures x in LiveSet(q) <==> x in LiveSet(p) || x == h {}
  }

  /** Putting back a handle that was never handed out breaks a pool, for instance a new one. */
  lemma UntakenPutBreaks()
    ensures Pool(0, {}, 10).Valid() && !AfterPut(Pool(0, {}, 10), 3).Valid()
  {
    assert 3 in AfterPut(Pool(0, {}, 10), 3).free;
  }

  lemma PutRemovesLive(p: Pool, h: nat)
    requires p.Valid() && p.Live(h)
    ensures AfterPut(p, h).Valid() && LiveSet(AfterPut(p, h)) == LiveSet(p) - {h}
  {}

  // -------------------------------------------------------------------- runs, replicas

  datatype Request = Get | Put(handle: nat)

  /** A caller may put back what is in use, and a get needs a handle to be left. */
  predicate Allowed(p: Pool, r: Request) {
    match r
    case Get => !Empty(p)
    case Put(h) => p.Live(h)
  }

  ghost function Serve(p: Pool, r: Request): Pool {
    match r
    case Get => AfterGet(p)
    case Put(h) => AfterPut(p, h)
  }

  ghost predicate AllAllowed(p: Pool, rs: seq<Request>)
    decreases |rs|
  {
    rs == [] || (Allowed(p, rs[0]) && AllAllowed(Serve(p, rs[0]), rs[1..]))
  }

  ghost function ServeAll(p: Pool, rs: seq<Request>): Pool
    decreases |rs|
  {
    if rs == [] then p else ServeAll(Serve(p, rs[0]), rs[1..])
  }

  /** A candidate's handle, wanted or just the next one, and the pool while it holds it. */
  ghost function CandidateHandle(p: Pool, wanted: Option<nat>): nat {
    if wanted.Some? then wanted.value else NextHandle(p)
  }

  ghost function WithCandidate(p: Pool, wanted: Option<nat>): Pool {
    if wanted.Some? then AfterTake(p, wanted.value) else AfterGet(p)
  }

  lemma {:induction false} StaysLive(p: Pool, rs: seq<Request>, h: nat)
    requires p.Valid() && AllAllowed(p, rs) && p.Live(h) && Put(h) !in rs
    ensures ServeAll(p, rs).Valid() && ServeAll(p, rs).Live(h)
    decreases |rs|
  {
    hide Allowed, Serve;
    if rs != [] {
      OneStaysLive(p, rs[0], h);
      StaysLive(Serve(p, rs[0]), rs[1..], h);
    }
  }

  lemma OneStaysLive(p: Pool, r: Request, h: nat)
    requires p.Valid() && Allowed(p, r) && p.Live(h) && r != Put(h)
    ensures Serve(p, r).Valid() && Serve(p, r).Live(h)
  {
    ServeKeepsValid(p, r);
    assert h in LiveSet(p);
    match r
    case Get => GetAddsLive(p); assert h in LiveSet(AfterGet(p));
    case Put(k) => PutRemovesLive(p, k); assert h in LiveSet(AfterPut(p, k));
  }

  /** A candidate that goes out of scope untaken puts back what it allocated, and only that,
      whatever else was allocated and put back in the meantime. With nothing in between,
      the live handles are those from before. */
  lemma UntakenCandidateLeavesNoTrace(p: Pool, wanted: Option<nat>, rs: seq<Request>)
    requires p.Valid()
    requires wanted.Some? ==> wanted.value < p.limit && !p.Live(wanted.value)
    requires wanted.None? ==> !Empty(p)
    requires AllAllowed(WithCandidate(p, wanted), rs) && Put(CandidateHandle(p, wanted)) !in rs
    ensures var h, during := CandidateHandle(p, wanted), WithCandidate(p, wanted);
            var later := ServeAll(during, rs);
            && !p.Live(h) && LiveSet(during) == LiveSet(p) + {h}
            && later.Live(h) && LiveSet(AfterPut(later, h)) == LiveSet(later) - {h}
            && LiveSet(AfterPut(during, h)) == LiveSet(p)
  {
    var h, during := CandidateHandle(p, wanted), WithCandidate(p, wanted);
    hide AfterTake, AfterGet, AfterPut, Empty;
    GetGivesLeast(p);
    if wanted.Some? { TakeAddsLive(p, h); } else { GetAddsLive(p); GetKeepsValid(p); }
    assert h in LiveSet(during) && h !in LiveSet(p);
    PutRemovesLive(during, h);
    StaysLive(during, rs, h);
    PutRemovesLive(ServeAll(during, rs), h);
  }

  lemma GetKeepsValid(p: Pool)
    requires p.Valid() && !Empty(p)
    ensures AfterGet(p).Valid()
  {}

  /** What a slave does for each of its parent's requests: take the handle the parent got,
      and put what the parent put. */
  ghost function Mirror(replica: Pool, parent: Pool, r: Request): Pool {
    match r
    case Get => AfterTake(replica, NextHandle(parent))
    case Put(h) => AfterPut(replica, h)
  }

  ghost function MirrorAll(replica: Pool, parent: Pool, rs: seq<Request>): Pool
    decreases |rs|
  {
    if rs == [] then replica
    else MirrorAll(Mirror(replica, parent, rs[0]), Serve(parent, rs[0]), rs[1..])
  }

  lemma ServeKeepsValid(p: Pool, r: Request)
    requires p.Valid() && Allowed(p, r)
    ensures Serve(p, r).Valid()
  {
    GetGivesLeast(p);
  }

  /** Main result: a slave that takes every handle its parent got and puts every handle
      its parent put has, after every run, the parent's watermark and free set. */
  lemma {:induction false} ReplicaEqualsParent(p: Pool, rs: seq<Request>)
    requires p.Valid() && AllAllowed(p, rs)
    ensures MirrorAll(p, p, rs) == ServeAll(p, rs)
    decreases |rs|
  {
    if rs != [] {
      ServeKeepsValid(p, rs[0]);
      GetGivesLeast(p);
      assert Mirror(p, p, rs[0]) == Serve(p, rs[0]);
      ReplicaEqualsParent(Serve(p, rs[0]), rs[1..]);
    }
  }

  /** A slave may also see handles out of order, from several parents' messages. */
  datatype Event = Taken(handle: nat) | Returned(handle: nat)

  predicate Consistent(p: Pool, es: seq<Event>)
    decreases |es|
  {
    es == [] ||
    (match es[0]
     case Taken(h) => h < p.limit && !p.Live(h) && Consistent(AfterTake(p, h), es[1..])
     case Returned(h) => p.Live(h) && Consistent(AfterPut(p, h), es[1..]))
  }

  function Track(p: Pool, es: seq<Event>): Pool
    decreases |es|
  {
    if es == [] then p
    else match es[0]
      case Taken(h) => Track(AfterTake(p, h), es[1..])
      case Returned(h) => Track(AfterPut(p, h), es[1..])
  }

  /** The handles taken and not returned, in terms of the events alone. */
  function Outstanding(live: set<nat>, es: seq<Event>): set<nat>
    decreases |es|
  {
    if es == [] then live
    else match es[0]
      case Taken(h) => Outstanding(live + {h}, es[1..])
      case Returned(h) => Outstanding(live - {h}, es[1..])
  }

  /** Main result: in whatever order fresh handles arrive, the live handles of a replica
      are exactly those taken and not put back. */
  lemma {:induction false} TrackedLiveIsOutstanding(p: Pool, es: seq<Event>)
    requires p.Valid() && Consistent(p, es)
    ensures Track(p, es).Valid() && LiveSet(Track(p, es)) == Outstanding(LiveSet(p), es)
    decreases |es|
  {
    if es != [] {
      match es[0]
      case Taken(h) =>
        TakeAddsLive(p, h);
        TrackedLiveIsOutstanding(AfterTake(p, h), es[1..]);
      case Returned(h) =>
        PutRemovesLive(p, h);
        TrackedLiveIsOutstanding(AfterPut(p, h), es[1..]);
    }
  }

  /** The largest number of handles in use at once, from `p` on. */
  ghost function Peak(p: Pool, rs: seq<Request>): nat
    decreases |rs|
  {
    var here := |LiveSet(p)|;
    if rs == [] then here
    else
      var later := Peak(Serve(p, rs[0]), rs[1..]);
      if here < later then later else here
  }

  lemma {:induction false} WatermarkFollowsPeak(p: Pool, rs: seq<Request>)
    requires p.Valid() && AllAllowed(p, rs)
    ensures ServeAll(p, rs).next == if Peak(p, rs) > p.next then Peak(p, rs) else p.next
    decreases |rs|
  {
    LiveCount(p);
    if rs != [] {
      var p1 := Serve(p, rs[0]);
      ServeKeepsValid(p, rs[0]);
      LiveCount(p1);
      WatermarkFollowsPeak(p1, rs[1..]);
    }
  }

  /** Main result: in get and put runs from the start, the watermark is the peak number of
      handles in use at once, so no handle value is spent needlessly. */
  lemma WatermarkIsPeak(limit: nat, rs: seq<Request>)
    requires AllAllowed(Pool(0, {}, limit), rs)
    ensures ServeAll(Pool(0, {}, limit), rs).next == Peak(Pool(0, {}, limit), rs)
  {
    WatermarkFollowsPeak(Pool(0, {}, limit), rs);
  }
}
