/** The user heap of a fork family: `brk` moves an end that all members share and
    maps or unmaps whole pages to follow it. */
module Heaps {
  import opened Basics
  import opened Frames
  import opened Paging

  const HEAP_START: nat := 0x2000_0000_0000
  const HEAP_PAGES: nat := 0x10_0000
  const HEAP_END: nat := HEAP_START + HEAP_PAGES * PAGE_SIZE - 8
  const HEAP_PAGE: Page := HEAP_START / PAGE_SIZE

  /** An address outside the heap is `Refused`; with tracing on, printing the
      missing result stops the kernel instead.  `Failed` is a mapping or unmapping
      that did not get to its end. */
  datatype BrkResult = End(addr: nat) | Refused | Failed | Stopped

  datatype HeapState = HeapState(mem: Mem, end: nat)

  /** Maps or unmaps pages so that the heap ends at page `now` instead of `was`. */
  function Resize(m: Mem, space: Space, was: nat, now: nat): (Mem, bool) {
    if now >= was then
      var (m', r) := MapPages(m, space, was, now - was);
      (m', r.Mapped?)
    else
      UnmapPages(m, space, now, was - now)
  }

  function MoveEnd(h: HeapState, space: Space, addr: Option<nat>, tracing: bool): (HeapState, BrkResult) {
    if addr.None? then (h, End(h.end))
    else if !(HEAP_START <= addr.value <= HEAP_END) then (h, if tracing then Stopped else Refused)
    else
      var (m, ok) := Resize(h.mem, space, PagesUp(h.end), PagesUp(addr.value));
      if ok then (HeapState(m, addr.value), End(addr.value)) else (h.(mem := m), Failed)
  }

  /** Clean-up rounds the end down.  `None` is the assertion on an empty run, which
      stops a debug build. */
  function FreeHeap(h: HeapState, space: Space, debug: bool): (HeapState, Option<bool>) {
    if h.end <= HEAP_START then (h, Some(true))
    else
      var pages := h.end / PAGE_SIZE - HEAP_PAGE;
      if pages == 0 && debug then (h.(end := HEAP_START), None)
      else
        var (m, ok) := UnmapPages(h.mem, space, HEAP_PAGE, pages);
        (HeapState(m, HEAP_START), Some(ok))
  }

  // ---------------------------------------------------------------------------
  // Which heap pages are mapped
  // ---------------------------------------------------------------------------

  predicate InHeap(l: Leaf, space: Space) { InRun(l, space, HEAP_PAGE, HEAP_PAGES) }

  /** The mapped pages of the heap's window are exactly those below page `top`. */
  ghost predicate MappedUpTo(m: Mem, space: Space, top: nat) {
    forall l :: InHeap(l, space) ==> (l in m.pages <==> l.page < top)
  }

  ghost predicate HeapOk(h: HeapState, space: Space) {
    && HEAP_START <= h.end <= HEAP_END
    && MappedUpTo(h.mem, space, PagesUp(h.end))
  }

  /** The two memories agree on every page outside the heap of `space`. */
  ghost predicate OnlyHeap(m: Mem, m': Mem, space: Space) {
    forall l :: !InHeap(l, space) ==>
      (l in m'.pages <==> l in m.pages) && (l in m.pages ==> m'.pages[l] == m.pages[l])
  }

  lemma EndPages(end: nat)
    requires HEAP_START <= end <= HEAP_END
    ensures HEAP_PAGE <= PagesUp(end) <= HEAP_PAGE + HEAP_PAGES
    ensures HEAP_PAGE <= end / PAGE_SIZE <= PagesUp(end) <= end / PAGE_SIZE + 1
    ensures PagesUp(end) == end / PAGE_SIZE <==> end % PAGE_SIZE == 0
    ensures end == HEAP_START ==> PagesUp(end) == HEAP_PAGE
  {
  }

  lemma TopIsUnique(m: Mem, space: Space, top: nat, bound: nat)
    requires MappedUpTo(m, space, top) && HEAP_PAGE <= bound <= top < HEAP_PAGE + HEAP_PAGES
    ensures MappedUpTo(m, space, bound) <==> top == bound
  {
    assert InHeap(Leaf(space, bound), space);
  }

  lemma GrowKeeps(m: Mem, space: Space, was: nat, now: nat) returns (j: nat)
    requires HEAP_PAGE <= was <= now <= HEAP_PAGE + HEAP_PAGES && MappedUpTo(m, space, was)
    ensures var (m', r) := MapPages(m, space, was, now - was);
            && !r.AlreadyMapped? && was + j <= now && (r.Mapped? <==> was + j == now)
            && MappedUpTo(m', space, was + j) && OnlyHeap(m, m', space)
  {
    j := MapPagesIs(m, space, was, now - was);
    var m' := MapPages(m, space, was, now - was).0;
    if was + j < now {
      assert InHeap(Leaf(space, was + j), space);
    }
    forall l | InHeap(l, space) ensures l in m'.pages <==> l.page < was + j {
      assert InRun(l, space, was, j) <==> was <= l.page < was + j;
    }
  }

  lemma ShrinkKeeps(m: Mem, space: Space, now: nat, was: nat)
    requires HEAP_PAGE <= now <= was <= HEAP_PAGE + HEAP_PAGES && MappedUpTo(m, space, was)
    ensures var (m', ok) := UnmapPages(m, space, now, was - now);
            ok && MappedUpTo(m', space, now) && OnlyHeap(m, m', space)
  {
    UnmapPagesIs(m, space, now, was - now);
    var m' := UnmapPages(m, space, now, was - now).0;
    forall l | InRun(l, space, now, was - now) ensures l in m.pages {
      assert InHeap(l, space);
    }
    forall l | InHeap(l, space) ensures l in m'.pages <==> l.page < now {
      assert InRun(l, space, now, was - now) <==> now <= l.page < was;
    }
    forall l | !InHeap(l, space) ensures !InRun(l, space, now, was - now) {}
  }

  lemma ResizeKeeps(m: Mem, space: Space, was: nat, now: nat) returns (extra: nat)
    requires HEAP_PAGE <= was <= HEAP_PAGE + HEAP_PAGES && HEAP_PAGE <= now <= HEAP_PAGE + HEAP_PAGES
    requires MappedUpTo(m, space, was)
    ensures var (m', ok) := Resize(m, space, was, now);
            && OnlyHeap(m, m', space)
            && (ok ==> extra == 0 && MappedUpTo(m', space, now))
            && (!ok ==> was + extra < now && MappedUpTo(m', space, was + extra)
                        && (MappedUpTo(m', space, was) <==> extra == 0))
  {
    extra := 0;
    if now >= was {
      var j := GrowKeeps(m, space, was, now);
      if was + j < now {
        extra := j;
        TopIsUnique(Resize(m, space, was, now).0, space, was + j, was);
      }
    } else {
      ShrinkKeeps(m, space, now, was);
    }
  }

  /** One `brk`: the mapped heap pages follow the end, and nothing outside the heap
      changes.  Only running out of frames breaks this: the end then stays, while
      the `extra` pages mapped before the failure stay mapped above it. */
  lemma BrkKeeps(h: HeapState, space: Space, addr: Option<nat>, tracing: bool) returns (extra: nat)
    requires HeapOk(h, space)
    ensures var (h', r) := MoveEnd(h, space, addr, tracing);
            && OnlyHeap(h.mem, h'.mem, space)
            && (r.Failed? ==> MappedUpTo(h'.mem, space, PagesUp(h.end) + extra)
                              && PagesUp(h.end) + extra < HEAP_PAGE + HEAP_PAGES)
            && (!r.Failed? ==> extra == 0)
            && (HeapOk(h', space) <==> extra == 0)
            && (r.End? ==> h'.end == r.addr && (addr.Some? ==> r.addr == addr.value))
            && (!r.End? ==> h'.end == h.end)
  {
    extra := 0;
    if addr.Some? && HEAP_START <= addr.value <= HEAP_END {
      EndPages(h.end);
      EndPages(addr.value);
      extra := ResizeKeeps(h.mem, space, PagesUp(h.end), PagesUp(addr.value));
    }
  }

  /** What any call answers, in any state: without an address the end as it is; for
      one outside the heap a refusal, or the stop of a traced build; for any other that
      address, which is then the end, or a failure, which leaves the end where it was.
      It fails exactly if the pages between the two ends cannot all be mapped, or all
      be unmapped. */
  lemma BrkAnswers(h: HeapState, space: Space, addr: Option<nat>, tracing: bool)
    ensures var (h', r) := MoveEnd(h, space, addr, tracing);
            match addr {
              case None => h' == h && r == End(h.end)
              case Some(to) =>
                if to < 0x2000_0000_0000 || 0x2000_ffff_fff8 < to then
                  h' == h && r == if tracing then Stopped else Refused
                else
                  var was, now := (h.end + 0xfff) / 0x1000, (to + 0xfff) / 0x1000;
                  && ((r == End(to) && h'.end == to) || (r == Failed && h'.end == h.end))
                  && (r == Failed <==>
                        || (was < now && !MapPages(h.mem, space, was, now - was).1.Mapped?)
                        || (now < was && exists l :: InRun(l, space, now, was - now) && l !in h.mem.pages))
            }
  {
    if addr.Some? && PagesUp(addr.value) < PagesUp(h.end) {
      UnmapPagesIs(h.mem, space, PagesUp(addr.value), PagesUp(h.end) - PagesUp(addr.value));
    }
  }

  /** Page `cap` is the first mapped page past the heap's own. */
  ghost predicate CappedAt(m: Mem, space: Space, top: nat, cap: nat) {
    && HEAP_PAGE <= top <= cap < HEAP_PAGE + HEAP_PAGES
    && forall l :: InHeap(l, space) && l.page <= cap ==> (l in m.pages <==> l.page < top || l.page == cap)
  }

  ghost predicate Capped(h: HeapState, space: Space, cap: nat) {
    HEAP_START <= h.end <= HEAP_END && CappedAt(h.mem, space, PagesUp(h.end), cap)
  }

  /** The call would map a first page of several, and not all of them. */
  predicate FailsPartWay(h: HeapState, space: Space, to: nat) {
    var was, now := PagesUp(h.end), PagesUp(to);
    && HEAP_START <= to <= HEAP_END && now > was + 1
    && MapPage(h.mem, Leaf(space, was)).1.Mapped? && !MapPages(h.mem, space, was, now - was).1.Mapped?
  }

  lemma ReachesSome(m: Mem, space: Space, page: Page, count: nat)
    requires count > 0
    ensures 0 < Reached(m, space, page, count) < count <==>
              count > 1 && MapPage(m, Leaf(space, page)).1.Mapped? && !MapPages(m, space, page, count).1.Mapped?
  {
    hide MapPage;
    var j := MapPagesIs(m, space, page, count);
  }

  lemma GrowCaps(m: Mem, space: Space, was: nat, now: nat)
    requires HEAP_PAGE <= was < now <= HEAP_PAGE + HEAP_PAGES && MappedUpTo(m, space, was)
    ensures var (m', r) := MapPages(m, space, was, now - was);
            !r.Mapped? ==> (MappedUpTo(m', space, was) <==> Reached(m, space, was, now - was) == 0)
                           && (MappedUpTo(m', space, was) || CappedAt(m', space, was, was))
  {
    hide MapPages;
    var m' := MapPages(m, space, was, now - was).0;
    var j := MapPagesIs(m, space, was, now - was);
    forall l | InHeap(l, space) ensures l in m'.pages <==> l.page < was + j {
      assert InRun(l, space, was, j) <==> was <= l.page < was + j;
    }
    if was + j < now {
      TopIsUnique(m', space, was + j, was);
    }
  }

  /** A `brk` takes the heap out of step exactly if it fails part-way, and then caps it. */
  lemma BrkCapsExactly(h: HeapState, space: Space, addr: Option<nat>, tracing: bool)
    requires HeapOk(h, space)
    ensures var h' := MoveEnd(h, space, addr, tracing).0;
            && (!HeapOk(h', space) <==> addr.Some? && FailsPartWay(h, space, addr.value))
            && (!HeapOk(h', space) ==> Capped(h', space, PagesUp(h.end)))
  {
    hide MappedUpTo, CappedAt, MapPages, MapPage;
    EndPages(h.end);
    var extra := BrkKeeps(h, space, addr, tracing);
    if addr.Some? && HEAP_START <= addr.value <= HEAP_END {
      EndPages(addr.value);
      var was, now := PagesUp(h.end), PagesUp(addr.value);
      if now > was {
        ReachesSome(h.mem, space, was, now - was);
        GrowCaps(h.mem, space, was, now);
        var j := MapPagesIs(h.mem, space, was, now - was);
      } else {
        ResizeDown(h, space, addr.value);
      }
    }
  }

  lemma ResizeDown(h: HeapState, space: Space, to: nat)
    requires HeapOk(h, space) && HEAP_START <= to <= HEAP_END && PagesUp(to) <= PagesUp(h.end)
    ensures Resize(h.mem, space, PagesUp(h.end), PagesUp(to)).1
  {
    EndPages(h.end);
    EndPages(to);
    if PagesUp(to) < PagesUp(h.end) {
      ShrinkKeeps(h.mem, space, PagesUp(to), PagesUp(h.end));
    }
  }

  lemma CappedGrows(m: Mem, space: Space, was: nat, now: nat, cap: nat)
    requires CappedAt(m, space, was, cap) && was <= now <= HEAP_PAGE + HEAP_PAGES
    ensures var (m', r) := MapPages(m, space, was, now - was);
            && (r.Mapped? ==> now <= cap && CappedAt(m', space, now, cap))
            && (!r.Mapped? ==> CappedAt(m', space, was, was) || CappedAt(m', space, was, cap))
  {
    hide MapPages;
    var (m', r) := MapPages(m, space, was, now - was);
    var j := MapPagesIs(m, space, was, now - was);
    assert InHeap(Leaf(space, cap), space);
    assert InRun(Leaf(space, cap), space, was, j) <==> cap < was + j;
    forall l | InHeap(l, space) ensures InRun(l, space, was, j) <==> was <= l.page < was + j {}
  }

  lemma CappedGrowsTo(m: Mem, space: Space, was: nat, now: nat, cap: nat)
    requires CappedAt(m, space, was, cap) && was <= now <= HEAP_PAGE + HEAP_PAGES
    requires Available(m.pool) >= 4 * (now - was)
    ensures MapPages(m, space, was, now - was).1.Mapped? <==> now <= cap
  {
    hide MapPages;
    MapPagesSucceeds(m, space, was, now - was);
    assert InHeap(Leaf(space, cap), space);
    assert InRun(Leaf(space, cap), space, was, now - was) <==> cap < now;
    forall l | InRun(l, space, was, now - was) && now <= cap ensures l !in m.pages {
      assert InHeap(l, space);
    }
  }

  lemma CappedShrinks(m: Mem, space: Space, now: nat, was: nat, cap: nat)
    requires CappedAt(m, space, was, cap) && HEAP_PAGE <= now < was
    ensures var (m', ok) := UnmapPages(m, space, now, was - now);
            ok && CappedAt(m', space, now, cap)
  {
    UnmapPagesIs(m, space, now, was - now);
    forall l | InRun(l, space, now, was - now) ensures l in m.pages {
      assert InHeap(l, space);
    }
    forall l | InHeap(l, space) ensures InRun(l, space, now, was - now) <==> now <= l.page < was {}
  }

  /** From then on the heap is capped for ever: no call moves the end past page
      `cap`, with frames enough a call succeeds exactly up to there, and the cap
      never rises. */
  lemma BrkStaysCapped(h: HeapState, space: Space, to: nat, tracing: bool, cap: nat) returns (cap': nat)
    requires Capped(h, space, cap)
    ensures cap' <= cap && Capped(MoveEnd(h, space, Some(to), tracing).0, space, cap')
    ensures MoveEnd(h, space, Some(to), tracing).1.End? ==> PagesUp(to) <= cap
    ensures HEAP_START <= to <= HEAP_END && Available(h.mem.pool) >= 4 * (PagesUp(to) - PagesUp(h.end)) ==>
              (MoveEnd(h, space, Some(to), tracing).1 == End(to) <==> PagesUp(to) <= cap)
  {
    assert PagesUp(h.end) <= cap;
    hide CappedAt, MapPages;
    cap' := cap;
    if HEAP_START <= to <= HEAP_END {
      EndPages(h.end);
      EndPages(to);
      var was, now := PagesUp(h.end), PagesUp(to);
      if now >= was {
        CappedGrows(h.mem, space, was, now, cap);
        if Available(h.mem.pool) >= 4 * (now - was) {
          CappedGrowsTo(h.mem, space, was, now, cap);
        }
        var top := if Resize(h.mem, space, was, now).1 then now else was;
        if !CappedAt(MoveEnd(h, space, Some(to), tracing).0.mem, space, top, cap) {
          cap' := was;
        }
      } else {
        CappedShrinks(h.mem, space, now, was, cap);
      }
    }
  }

  /** With four frames for every page to add, `brk` is refused exactly outside the
      heap, and then moves nothing. */
  lemma BrkSucceeds(h: HeapState, space: Space, addr: nat, tracing: bool)
    requires HeapOk(h, space)
    requires Available(h.mem.pool) >= 4 * (PagesUp(addr) - PagesUp(h.end))
    ensures var (h', r) := MoveEnd(h, space, Some(addr), tracing);
            if HEAP_START <= addr <= HEAP_END then r == End(addr) else !r.End? && h' == h
  {
    if HEAP_START <= addr <= HEAP_END {
      var was, now := PagesUp(h.end), PagesUp(addr);
      EndPages(h.end);
      EndPages(addr);
      if now >= was {
        forall l | InRun(l, space, was, now - was) ensures l !in h.mem.pages {
          assert InHeap(l, space);
        }
        MapPagesSucceeds(h.mem, space, was, now - was);
      } else {
        ShrinkKeeps(h.mem, space, now, was);
      }
    }
  }

  /** Clean-up frees the whole heap exactly when the end is on a page boundary;
      otherwise it leaves exactly the last page. */
  lemma CleanUpLeaves(h: HeapState, space: Space, debug: bool)
    requires HeapOk(h, space)
    ensures var (h', r) := FreeHeap(h, space, debug);
            var last := Leaf(space, h.end / PAGE_SIZE);
            && h'.end == HEAP_START && OnlyHeap(h.mem, h'.mem, space)
            && (r == None <==> debug && HEAP_START < h.end < HEAP_START + PAGE_SIZE)
            && (r.Some? ==> r.value)
            && forall l :: InHeap(l, space) ==> (l in h'.mem.pages <==> h.end % PAGE_SIZE != 0 && l == last)
  {
    EndPages(h.end);
    var pages := h.end / PAGE_SIZE - HEAP_PAGE;
    UnmapPagesIs(h.mem, space, HEAP_PAGE, pages);
    forall l | InRun(l, space, HEAP_PAGE, pages) ensures InHeap(l, space) && l in h.mem.pages {}
    var h' := FreeHeap(h, space, debug).0;
    forall l | InHeap(l, space)
      ensures l in h'.mem.pages <==> h.end % PAGE_SIZE != 0 && l == Leaf(space, h.end / PAGE_SIZE)
    {
      assert l in h.mem.pages <==> l.page < PagesUp(h.end);
      assert InRun(l, space, HEAP_PAGE, pages) <==> l.page < h.end / PAGE_SIZE;
    }
    forall l | !InHeap(l, space) ensures !InRun(l, space, HEAP_PAGE, pages) {}
  }

  // ---------------------------------------------------------------------------
  // Any sequence of calls
  // ---------------------------------------------------------------------------

  /** A call by any member of the family, or anything that leaves the pages of this
      heap's window alone. */
  datatype HeapOp = Call(addr: Option<nat>, tracing: bool) | Elsewhere(mem: Mem)

  function HeapStep(h: HeapState, space: Space, op: HeapOp): HeapState {
    match op
    case Call(addr, tracing) => MoveEnd(h, space, addr, tracing).0
    case Elsewhere(m) => h.(mem := m)
  }

  function HeapRun(h: HeapState, space: Space, ops: seq<HeapOp>): HeapState {
    if ops == [] then h else HeapStep(HeapRun(h, space, ops[..|ops| - 1]), space, ops[|ops| - 1])
  }

  /** No call fails for want of frames, and what happens elsewhere stays there. */
  ghost predicate HeapOpOk(h: HeapState, space: Space, op: HeapOp) {
    match op
    case Call(addr, tracing) => MoveEnd(h, space, addr, tracing).1 != Failed
    case Elsewhere(m) => forall l :: InHeap(l, space) ==> (l in m.pages <==> l in h.mem.pages)
  }

  ghost predicate HeapRunOk(h: HeapState, space: Space, ops: seq<HeapOp>) {
    ops != [] ==>
      && HeapRunOk(h, space, ops[..|ops| - 1])
      && HeapOpOk(HeapRun(h, space, ops[..|ops| - 1]), space, ops[|ops| - 1])
  }

  /** After any calls by any members the mapped heap pages are exactly those from the
      start of the heap to its end rounded up. */
  lemma {:induction false} HeapFollowsEnd(h: HeapState, space: Space, ops: seq<HeapOp>)
    requires HeapOk(h, space) && HeapRunOk(h, space, ops)
    ensures HeapOk(HeapRun(h, space, ops), space)
    decreases |ops|
  {
    if ops != [] {
      var h1, op := HeapRun(h, space, ops[..|ops| - 1]), ops[|ops| - 1];
      HeapFollowsEnd(h, space, ops[..|ops| - 1]);
      if op.Call? {
        var extra := BrkKeeps(h1, space, op.addr, op.tracing);
      }
    }
  }

  /** The address of the last call that was given one and answered with it, or the
      end at the beginning if there was none. */
  function LastAnswer(h: HeapState, space: Space, ops: seq<HeapOp>): nat {
    if ops == [] then h.end
    else
      var before, op := ops[..|ops| - 1], ops[|ops| - 1];
      if op.Call? && op.addr.Some? && MoveEnd(HeapRun(h, space, before), space, op.addr, op.tracing).1.End? then
        op.addr.value
      else
        LastAnswer(h, space, before)
  }

  /** A call without an address, after any calls by any members, failed ones too,
      tells the address of the last one that succeeded, and changes nothing. */
  lemma {:induction false} BrkTellsLast(h: HeapState, space: Space, ops: seq<HeapOp>, tracing: bool)
    ensures var h' := HeapRun(h, space, ops);
            MoveEnd(h', space, None, tracing) == (h', End(LastAnswer(h, space, ops)))
    decreases |ops|
  {
    if ops != [] {
      BrkTellsLast(h, space, ops[..|ops| - 1], tracing);
    }
  }

  // ---------------------------------------------------------------------------
  // The heap object
  // ---------------------------------------------------------------------------

  /** The end of the heap, one for a whole fork family. */
  class SharedEnd {
    var value: nat

    constructor ()
      ensures value == HEAP_START
    {
      value := HEAP_START;
    }
  }

  class Heap {
    const end: SharedEnd

    constructor ()
      ensures fresh(end) && end.value == HEAP_START
    {
      end := new SharedEnd();
    }

    constructor Fork(parent: Heap)
      ensures end == parent.end
    {
      end := parent.end;
    }

    ghost function View(mapper: Mapper, alloc: FrameAllocator): HeapState
      reads end, mapper, alloc
    {
      HeapState(mapper.View(alloc), end.value)
    }

    method Brk(space: Space, addr: Option<nat>, tracing: bool, mapper: Mapper, alloc: FrameAllocator)
        returns (r: BrkResult)
      modifies end, mapper, alloc
      ensures (View(mapper, alloc), r) == MoveEnd(old(View(mapper, alloc)), space, addr, tracing)
    {
      if addr.None? {
        return End(end.value);
      }
      var to := addr.value;
      if !(HEAP_START <= to <= HEAP_END) {
        return if tracing then Stopped else Refused;
      }
      var was, now := PagesUp(end.value), PagesUp(to);
      if now > was {
        var m := mapper.MapRange(space, was, now - was, alloc);
        if !m.Mapped? {
          return Failed;
        }
      } else if now < was {
        var ok := mapper.UnmapRange(space, now, was - now, alloc);
        if !ok {
          return Failed;
        }
      }
      end.value := to;
      r := End(to);
    }

    method CleanUp(space: Space, debug: bool, mapper: Mapper, alloc: FrameAllocator) returns (r: Option<bool>)
      modifies end, mapper, alloc
      ensures (View(mapper, alloc), r) == FreeHeap(old(View(mapper, alloc)), space, debug)
    {
      if end.value <= HEAP_START {
        return Some(true);
      }
      var pages := end.value / PAGE_SIZE - HEAP_PAGE;
      end.value := HEAP_START;
      if pages == 0 && debug {
        return None;
      }
      var ok := mapper.UnmapRange(space, HEAP_PAGE, pages, alloc);
      r := Some(ok);
    }
  }
}
