/** User stacks: every process has one in a 4 GiB slot of its own, growing down
    from the top of the slot, and a fork looks for a slot below the parent's. */
module Stacks {
  import opened Basics
  import opened Frames
  import opened Paging
  import opened Memory
  import opened Ownership
  import Kernel

  const SLOT_PAGES: nat := 0x10_0000
  const STACK_MAX_PAGE: Page := 0x4000_0000_0000 / PAGE_SIZE

  /** Pages `start` up to but excluding `end`. */
  datatype Stack = Stack(start: Page, end: Page, usage: nat)

  predicate OnStack(s: Stack, addr: nat) {
    addr / (SLOT_PAGES * PAGE_SIZE) == s.start * PAGE_SIZE / (SLOT_PAGES * PAGE_SIZE)
  }

  /** The first stack of a program, in the slot that its pid names.  `None` stands
      for the kernel stopping: the slot does not exist or mapping failed. */
  function InitStack(m: Mem, space: Space, pid: Pid): (Mem, Option<Stack>) {
    if pid == 0 || (pid - 1) * SLOT_PAGES + 1 > STACK_MAX_PAGE then (m, None)
    else
      var bottom := STACK_MAX_PAGE - (pid - 1) * SLOT_PAGES - 1;
      var (m', r) := MapPages(m, space, bottom, 1);
      if r.Mapped? then (m', Some(Stack(bottom, bottom + 1, 1))) else (m', None)
  }

  function Len(s: Stack): nat { if s.start < s.end then s.end - s.start else 0 }

  /** `NotBelow`: the faulting page is not below the stack, where the page count
      would be zero or underflow. */
  datatype GrowResult = Grown | OffStack | NotBelow | MapFailed

  /** A page fault at `addr`: the missing pages down to it are filled in. */
  function Grow(m: Mem, space: Space, s: Stack, addr: nat): (Mem, Stack, GrowResult) {
    var page := PageOf(addr);
    if !OnStack(s, addr) then (m, s, OffStack)
    else if page >= s.start then (m, s, NotBelow)
    else
      var (m', r) := MapPages(m, space, page, s.start - page);
      if r.Mapped? then (m', Stack(page, s.end, Len(Stack(page, s.end, 0))), Grown) else (m', s, MapFailed)
  }

  /** Tries `page`, and then one slot lower as long as mapping fails.  `None` is
      running below address zero, which stops the kernel. */
  function Retry(m: Mem, space: Space, page: Page, count: nat): (Mem, Option<Page>)
    decreases page
  {
    var (m', r) := MapPages(m, space, page, count);
    if r.Mapped? then (m', Some(page))
    else if page < SLOT_PAGES then (m', None)
    else Retry(m', space, page - SLOT_PAGES, count)
  }

  /** The child's stack, first tried `slots` slots below the parent's. */
  function ForkStack(m: Mem, space: Space, s: Stack, slots: nat): (Mem, Option<Stack>) {
    if s.start < slots * SLOT_PAGES then (m, None)
    else
      var (m', p) := Retry(m, space, s.start - slots * SLOT_PAGES, s.usage);
      if p.None? then (m', None) else (m', Some(Stack(p.value, p.value + s.usage, s.usage)))
  }

  function FreeStack(m: Mem, space: Space, s: Stack): (Mem, bool) {
    if s.usage == 0 then (m, true) else UnmapPages(m, space, s.start, Len(s))
  }

  // ---------------------------------------------------------------------------
  // The shape of a stack
  // ---------------------------------------------------------------------------

  /** The range ends at the top of one slot, lies in it, and `usage` counts it. */
  predicate StackShape(s: Stack) {
    && s.start < s.end && s.end % SLOT_PAGES == 0
    && s.usage == s.end - s.start <= SLOT_PAGES
  }

  lemma InitShape(m: Mem, space: Space, pid: Pid)
    requires InitStack(m, space, pid).1.Some?
    ensures var (m', s) := InitStack(m, space, pid);
            && StackShape(s.value) && s.value.usage == 1
            && s.value.end * 0x1000 == 0x4000_0000_0000 - (pid - 1) * 0x1_0000_0000
            && Extends(m, m', space, s.value.start, 1)
  {
    var j := MapPagesIs(m, space, STACK_MAX_PAGE - (pid - 1) * SLOT_PAGES - 1, 1);
    assert STACK_MAX_PAGE == 0x4000 * SLOT_PAGES;
    ModOfMultiple(0x4000 - (pid - 1));
  }

  lemma ModOfMultiple(k: int)
    ensures k * SLOT_PAGES % SLOT_PAGES == 0
  {
  }

  /** An address is on the stack exactly when its page is in the stack's slot. */
  lemma OnStackIs(s: Stack, addr: nat)
    requires StackShape(s)
    ensures OnStack(s, addr) <==> s.end - SLOT_PAGES <= PageOf(addr) < s.end
  {
    var k := s.end / SLOT_PAGES - 1;
    assert s.end == (k + 1) * SLOT_PAGES;
    SlotOf(s.start * PAGE_SIZE, k);
    SlotOf(addr, k);
    assert s.start * PAGE_SIZE / PAGE_SIZE == s.start;
  }

  lemma SlotOf(addr: nat, k: nat)
    ensures addr / (SLOT_PAGES * PAGE_SIZE) == k <==> k * SLOT_PAGES <= PageOf(addr) < (k + 1) * SLOT_PAGES
  {
  }

  /** A fault on a page that is not mapped lies below the stack, so the page count
      of `grow_stack` cannot underflow; the shape is kept, and the new pages are
      exactly those between the fault and the old bottom, or on failure a first
      part of them. */
  lemma GrowIs(m: Mem, space: Space, s: Stack, addr: nat) returns (j: nat)
    requires StackShape(s) && RunMapped(m, space, s.start, Len(s))
    requires Leaf(space, PageOf(addr)) !in m.pages
    ensures var (m', s', r) := Grow(m, space, s, addr);
            var page := PageOf(addr);
            && r != NotBelow && (r == OffStack <==> !(s.end - SLOT_PAGES <= page < s.end))
            && StackShape(s') && s'.end == s.end && s'.start <= s.start
            && (r == Grown ==> page == s'.start && page + j == s.start)
            && (r == MapFailed ==> s' == s && page + j < s.start)
            && (r == OffStack ==> s' == s && j == 0)
            && Extends(m, m', space, page, j)
  {
    var page := PageOf(addr);
    OnStackIs(s, addr);
    assert InRun(Leaf(space, page), space, s.start, Len(s)) <==> s.start <= page < s.end;
    if OnStack(s, addr) {
      j := MapPagesIs(m, space, page, s.start - page);
    } else {
      j := 0;
    }
  }

  lemma GrowCases(m: Mem, space: Space, s: Stack, addr: nat, g: (Mem, Stack, GrowResult), page: Page)
    requires StackShape(s) && RunMapped(m, space, s.start, Len(s)) && page == PageOf(addr) && Leaf(space, page) !in m.pages
    requires g == Grow(m, space, s, addr)
    ensures !g.2.NotBelow? && (g.2.OffStack? <==> !OnStack(s, addr))
    ensures g.2.OffStack? ==> g.0 == m && g.1 == s
    ensures !g.2.OffStack? ==> page < s.start
    ensures g.2.Grown? ==> MapPages(m, space, page, s.start - page) == (g.0, Mapped)
    ensures g.2.Grown? ==> g.1.start == page && g.1.end == s.end && StackShape(g.1)
    ensures g.2.MapFailed? ==> g.1 == s && MapPages(m, space, page, s.start - page).0 == g.0
    ensures g.2.MapFailed? ==> !MapPages(m, space, page, s.start - page).1.Mapped?
  {
    hide OnStack, MapPages, StackShape, Extends, RunMapped, PageOf;
    var j := GrowIs(m, space, s, addr);
  }

  /** After a fault its page is mapped exactly if it is on the stack and there was a
      frame for it. */
  lemma GrowResolves(m: Mem, space: Space, s: Stack, addr: nat)
    requires StackShape(s) && RunMapped(m, space, s.start, Len(s))
    requires Leaf(space, PageOf(addr)) !in m.pages
    ensures Leaf(space, PageOf(addr)) in Grow(m, space, s, addr).0.pages <==>
            OnStack(s, addr) && MapPage(m, Leaf(space, PageOf(addr))).1.Mapped?
  {
    hide MapPage, OnStack, StackShape, RunMapped, PageOf;
    var page := PageOf(addr);
    var j := GrowIs(m, space, s, addr);
    if OnStack(s, addr) {
      var i := MapPagesIs(m, space, page, s.start - page);
      assert InRun(Leaf(space, page), space, page, i) <==> i > 0;
    }
  }

  // ---------------------------------------------------------------------------
  // Where a fork puts the child's stack
  // ---------------------------------------------------------------------------

  /** `at` is `page` or whole slots below it. */
  predicate SlotsBelow(at: Page, page: Page)
    ensures SlotsBelow(at, page) ==> at == page || at + SLOT_PAGES <= page
  {
    at == page || (page >= SLOT_PAGES && SlotsBelow(at, page - SLOT_PAGES))
  }

  /** What an attempt at page `at` maps: the pages before the first mapped one. */
  ghost predicate Added(m: Mem, l: Leaf, space: Space, at: Page, count: nat) {
    && InRun(l, space, at, count)
    && forall x :: InRun(x, space, at, count) && x.page <= l.page ==> x !in m.pages
  }

  /** After the attempts from `page` down to `last`: the old pages as they were, and
      what each attempt added. */
  ghost predicate AfterTries(m: Mem, m': Mem, space: Space, page: Page, count: nat, last: Page) {
    && (forall l :: l in m'.pages <==>
          l in m.pages || exists at :: SlotsBelow(at, page) && last <= at && Added(m, l, space, at, count))
    && (forall l :: l in m.pages ==> l in m'.pages && m'.pages[l] == m.pages[l])
  }

  /** `at` is the highest page, by whole slots from `page` down, with a free run. */
  ghost predicate HighestFree(m: Mem, space: Space, page: Page, count: nat, at: Page) {
    && SlotsBelow(at, page) && RunFree(m, space, at, count)
    && forall x :: SlotsBelow(x, page) && at < x ==> !RunFree(m, space, x, count)
  }

  /** Four frames for each page of each attempt. */
  function FramesFor(count: nat, page: Page, last: Page): nat {
    4 * count + if page < last + SLOT_PAGES then 0 else FramesFor(count, page - SLOT_PAGES, last)
  }

  /** The first attempt, with frames enough. */
  lemma FirstTry(m: Mem, space: Space, page: Page, count: nat)
    requires Available(m.pool) >= 4 * count
    ensures var (m', r) := MapPages(m, space, page, count);
            && AfterTries(m, m', space, page, count, page)
            && (r.Mapped? <==> RunFree(m, space, page, count))
            && Available(m.pool) <= Available(m'.pool) + 4 * count
  {
    MapPagesSucceeds(m, space, page, count);
    var j := MapPagesIs(m, space, page, count);
    if j < count {
      assert InRun(Leaf(space, page + j), space, page, count);
    }
    forall l ensures Added(m, l, space, page, count) <==> InRun(l, space, page, j) {
      if InRun(l, space, page, j) {
        forall x | InRun(x, space, page, count) && x.page <= l.page ensures x !in m.pages {
          assert InRun(x, space, page, j);
        }
      }
    }
    assert SlotsBelow(page, page);
  }

  /** What was added in higher slots makes no difference to the later attempts. */
  lemma LowerTries(m: Mem, m1: Mem, space: Space, page: Page, count: nat, at: Page)
    requires AfterTries(m, m1, space, page, count, page) && at + SLOT_PAGES <= page && count <= SLOT_PAGES
    ensures RunFree(m1, space, at, count) <==> RunFree(m, space, at, count)
    ensures forall l :: Added(m1, l, space, at, count) <==> Added(m, l, space, at, count)
  {
    forall l | InRun(l, space, at, count) ensures l in m1.pages <==> l in m.pages {
      assert !InRun(l, space, page, count);
    }
  }

  lemma TriesAddUp(m: Mem, m1: Mem, m': Mem, space: Space, page: Page, below: Page, count: nat, last: Page)
    requires AfterTries(m, m1, space, page, count, page) && below + SLOT_PAGES == page && count <= SLOT_PAGES
    requires AfterTries(m1, m', space, below, count, last) && last <= page
    ensures AfterTries(m, m', space, page, count, last)
  {
    forall l ensures l in m'.pages <==>
        l in m.pages || exists at :: SlotsBelow(at, page) && last <= at && Added(m, l, space, at, count)
    {
      if at :| SlotsBelow(at, below) && last <= at && Added(m1, l, space, at, count) {
        LowerTries(m, m1, space, page, count, at);
        assert SlotsBelow(at, page);
      }
      if at :| SlotsBelow(at, page) && last <= at && Added(m, l, space, at, count) {
        if at != page {
          LowerTries(m, m1, space, page, count, at);
          assert SlotsBelow(at, below);
        }
      }
    }
  }

  lemma HighestFreeBelow(m: Mem, m1: Mem, space: Space, page: Page, below: Page, count: nat, at: Page)
    requires AfterTries(m, m1, space, page, count, page) && below + SLOT_PAGES == page && count <= SLOT_PAGES
    requires HighestFree(m, space, page, count, at) && at != page
    ensures HighestFree(m1, space, below, count, at)
  {
    forall x | SlotsBelow(x, below) ensures RunFree(m1, space, x, count) <==> RunFree(m, space, x, count) {
      LowerTries(m, m1, space, page, count, x);
    }
  }

  /** Given frames enough and a free slot below, the loop ends and picks the highest
      free slot.  No page mapped before changes; besides the child's stack there
      are only the pages that the failed attempts left behind. */
  lemma {:induction false} RetryPicks(m: Mem, space: Space, page: Page, count: nat, at: Page)
    requires 0 < count <= SLOT_PAGES && Available(m.pool) >= FramesFor(count, page, at)
    requires HighestFree(m, space, page, count, at)
    ensures Retry(m, space, page, count).1 == Some(at)
    ensures AfterTries(m, Retry(m, space, page, count).0, space, page, count, at)
    decreases page
  {
    FirstTry(m, space, page, count);
    if at < page {
      assert SlotsBelow(page, page);
      var m1 := MapPages(m, space, page, count).0;
      assert page >= at + SLOT_PAGES;
      var below := page - SLOT_PAGES;
      HighestFreeBelow(m, m1, space, page, below, count, at);
      RetryPicks(m1, space, below, count, at);
      var m' := Retry(m1, space, below, count).0;
      TriesAddUp(m, m1, m', space, page, below, count, at);
    }
  }

  lemma {:induction false} EnoughFrames(count: nat, page: Page, last: Page)
    requires last <= page
    ensures FramesFor(count, page, last) <= FramesFor(count, page, 0)
    decreases page
  {
    if page >= last + SLOT_PAGES {
      EnoughFrames(count, page - SLOT_PAGES, last);
    }
  }

  /** Looking from `page` down by whole slots, there is a highest free run or none. */
  lemma {:induction false} FreeOrNot(m: Mem, space: Space, page: Page, count: nat) returns (at: Option<Page>)
    ensures at.Some? ==> HighestFree(m, space, page, count, at.value)
    ensures at.None? ==> forall x :: SlotsBelow(x, page) ==> !RunFree(m, space, x, count)
    decreases page
  {
    hide RunFree;
    if RunFree(m, space, page, count) {
      at := Some(page);
    } else if page < SLOT_PAGES {
      at := None;
    } else {
      at := FreeOrNot(m, space, page - SLOT_PAGES, count);
    }
  }

  /** With frames enough for every attempt the loop finds a free run exactly if there
      is one, and then the highest. */
  lemma RetryFinds(m: Mem, space: Space, page: Page, count: nat, at: Page)
    requires 0 < count <= SLOT_PAGES && Available(m.pool) >= FramesFor(count, page, 0)
    ensures Retry(m, space, page, count).1 == Some(at) <==> HighestFree(m, space, page, count, at)
    ensures Retry(m, space, page, count).1 == None <==>
              forall x :: SlotsBelow(x, page) ==> !RunFree(m, space, x, count)
  {
    hide Retry, RunFree;
    var top := FreeOrNot(m, space, page, count);
    if top.Some? {
      EnoughFrames(count, page, top.value);
      RetryPicks(m, space, page, count, top.value);
    } else {
      RetryIsSafe(m, space, page, count);
    }
  }

  /** `n` slots below the stack `s` there is room for a stack of its size. */
  ghost predicate RoomBelow(m: Mem, space: Space, s: Stack, n: nat) {
    n * SLOT_PAGES <= s.start && RunFree(m, space, s.start - n * SLOT_PAGES, s.usage)
  }

  lemma {:induction false} SlotsApart(at: Page, page: Page) returns (n: nat)
    requires SlotsBelow(at, page)
    ensures page == at + n * SLOT_PAGES
    decreases page
  {
    if at == page {
      n := 0;
    } else {
      var k := SlotsApart(at, page - SLOT_PAGES);
      n := k + 1;
    }
  }

  lemma RoomIs(m: Mem, space: Space, s: Stack, slots: nat, n: nat)
    requires slots * SLOT_PAGES <= s.start && slots <= n && n * SLOT_PAGES <= s.start
    ensures var at, page := s.start - n * SLOT_PAGES, s.start - slots * SLOT_PAGES;
            SlotsBelow(at, page) && (RoomBelow(m, space, s, n) <==> RunFree(m, space, at, s.usage))
  {
    WholeSlots(s.start - n * SLOT_PAGES, s.start - slots * SLOT_PAGES, n - slots);
  }

  lemma RoomOf(m: Mem, space: Space, s: Stack, slots: nat, x: Page) returns (n: nat)
    requires slots * SLOT_PAGES <= s.start && SlotsBelow(x, s.start - slots * SLOT_PAGES)
    ensures slots <= n && n * SLOT_PAGES <= s.start && x == s.start - n * SLOT_PAGES
    ensures RoomBelow(m, space, s, n) <==> RunFree(m, space, x, s.usage)
  {
    var k := SlotsApart(x, s.start - slots * SLOT_PAGES);
    n := slots + k;
  }

  /** The fork of a stack, with frames enough for every attempt: it fails exactly if there
      is no room in any slot from `slots` below on, and otherwise the child's stack is in
      the first of these slots that has room, page for page as the parent's is in its own. */
  lemma ForkFinds(m: Mem, space: Space, s: Stack, slots: nat, n: nat)
    requires StackShape(s) && Available(m.pool) >= FramesFor(s.usage, s.start, 0)
    ensures ForkStack(m, space, s, slots).1 == None <==> forall k :: slots <= k ==> !RoomBelow(m, space, s, k)
    ensures slots <= n && RoomBelow(m, space, s, n) && (forall k :: slots <= k < n ==> !RoomBelow(m, space, s, k)) ==>
              ForkStack(m, space, s, slots).1 ==
              Some(Stack(s.start - n * SLOT_PAGES, s.end - n * SLOT_PAGES, s.usage))
  {
    hide Retry, RunFree, RoomBelow;
    if slots * SLOT_PAGES <= s.start {
      var page := s.start - slots * SLOT_PAGES;
      FewerAttempts(s.usage, s.start, slots);
      RoomEverywhere(m, space, s, slots);
      RetryFinds(m, space, page, s.usage, 0);
      if slots <= n && RoomBelow(m, space, s, n) && (forall k :: slots <= k < n ==> !RoomBelow(m, space, s, k)) {
        FirstRoom(m, space, s, slots, n);
        RetryFinds(m, space, page, s.usage, s.start - n * SLOT_PAGES);
      }
    } else {
      NoRoom(m, space, s, slots);
    }
  }

  lemma NoRoom(m: Mem, space: Space, s: Stack, slots: nat)
    requires s.start < slots * SLOT_PAGES
    ensures forall k :: slots <= k ==> !RoomBelow(m, space, s, k)
  {
    forall k | slots <= k ensures !RoomBelow(m, space, s, k) {
      assert slots * SLOT_PAGES <= k * SLOT_PAGES;
    }
  }

  lemma FewerAttempts(count: nat, start: Page, slots: nat)
    requires slots * SLOT_PAGES <= start
    ensures FramesFor(count, start - slots * SLOT_PAGES, 0) <= FramesFor(count, start, 0)
    decreases slots
  {
    if slots > 0 {
      FewerAttempts(count, start - SLOT_PAGES, slots - 1);
    }
  }

  lemma RoomEverywhere(m: Mem, space: Space, s: Stack, slots: nat)
    requires slots * SLOT_PAGES <= s.start
    ensures (forall k :: slots <= k ==> !RoomBelow(m, space, s, k)) <==>
              forall x :: SlotsBelow(x, s.start - slots * SLOT_PAGES) ==> !RunFree(m, space, x, s.usage)
  {
    hide RunFree;
    if forall k :: slots <= k ==> !RoomBelow(m, space, s, k) {
      forall x | SlotsBelow(x, s.start - slots * SLOT_PAGES) ensures !RunFree(m, space, x, s.usage) {
        var n := RoomOf(m, space, s, slots, x);
      }
    }
    if k :| slots <= k && RoomBelow(m, space, s, k) {
      RoomIs(m, space, s, slots, k);
    }
  }

  lemma FirstRoom(m: Mem, space: Space, s: Stack, slots: nat, n: nat)
    requires slots * SLOT_PAGES <= s.start && slots <= n && RoomBelow(m, space, s, n)
    requires forall k :: slots <= k < n ==> !RoomBelow(m, space, s, k)
    ensures n * SLOT_PAGES <= s.start
    ensures HighestFree(m, space, s.start - slots * SLOT_PAGES, s.usage, s.start - n * SLOT_PAGES)
  {
    hide RunFree;
    var at, page := s.start - n * SLOT_PAGES, s.start - slots * SLOT_PAGES;
    RoomIs(m, space, s, slots, n);
    forall x | SlotsBelow(x, page) && at < x ensures !RunFree(m, space, x, s.usage) {
      var k := RoomOf(m, space, s, slots, x);
      assert k < n by { assert k >= n ==> k * SLOT_PAGES >= n * SLOT_PAGES; }
    }
  }

  /** What the attempts that fail leave behind: of each, the pages it reached. */
  function StrayPages(m: Mem, space: Space, page: Page, count: nat): set<Page>
    decreases page
  {
    var (m', r) := MapPages(m, space, page, count);
    if r.Mapped? then {}
    else
      PageRun(page, Reached(m, space, page, count)) +
      if page < SLOT_PAGES then {} else StrayPages(m', space, page - SLOT_PAGES, count)
  }

  /** The loop adds exactly the run it picks and the strays. */
  lemma {:induction false} RetryAdds(m: Mem, space: Space, page: Page, count: nat)
    ensures var (m', p) := Retry(m, space, page, count);
            forall l :: l in m'.pages <==>
              || l in m.pages
              || (l.space == space && l.page in StrayPages(m, space, page, count))
              || (p.Some? && InRun(l, space, p.value, count))
    ensures forall x :: x in StrayPages(m, space, page, count) ==> Leaf(space, x) !in m.pages
    decreases page
  {
    hide MapPages, Reached, PageRun;
    var (m1, r) := MapPages(m, space, page, count);
    var j := MapPagesIs(m, space, page, count);
    forall l ensures InRun(l, space, page, j) <==> l.space == space && l.page in PageRun(page, j) {
      InPageRun(l, space, page, j);
    }
    if !r.Mapped? && page >= SLOT_PAGES {
      RetryAdds(m1, space, page - SLOT_PAGES, count);
    }
    forall x | x in PageRun(page, j) ensures Leaf(space, x) !in m.pages {
      assert InRun(Leaf(space, x), space, page, j);
    }
  }

  lemma InPageRun(l: Leaf, space: Space, page: Page, count: nat)
    ensures InRun(l, space, page, count) <==> l.space == space && l.page in PageRun(page, count)
  {
  }

  /** The strays lie above the run that is picked. */
  lemma {:induction false} StraysAbove(m: Mem, space: Space, page: Page, count: nat)
    requires count <= SLOT_PAGES
    ensures var p := Retry(m, space, page, count).1;
            p.Some? ==> p.value <= page && forall x :: x in StrayPages(m, space, page, count) ==> p.value + count <= x
    decreases page
  {
    hide MapPages;
    if page >= SLOT_PAGES {
      StraysAbove(MapPages(m, space, page, count).0, space, page - SLOT_PAGES, count);
    }
  }

  /** Whatever the frames: no page mapped before changes, the slot picked was free,
      and every other new page lies in a slot that was tried and skipped. */
  lemma {:induction false} RetryIsSafe(m: Mem, space: Space, page: Page, count: nat)
    requires 0 < count <= SLOT_PAGES
    ensures var (m', p) := Retry(m, space, page, count);
            && (p.Some? ==> SlotsBelow(p.value, page) && RunFree(m, space, p.value, count)
                            && RunMapped(m', space, p.value, count))
            && (forall l :: l in m.pages ==> l in m'.pages && m'.pages[l] == m.pages[l])
            && (forall l :: l in m'.pages && l !in m.pages ==>
                  exists at :: SlotsBelow(at, page) && (p.Some? ==> p.value <= at) && InRun(l, space, at, count))
    decreases page
  {
    hide MapPages;
    var (m1, r) := MapPages(m, space, page, count);
    var j := MapPagesIs(m, space, page, count);
    assert SlotsBelow(page, page);
    forall l | InRun(l, space, page, j) ensures InRun(l, space, page, count) {}
    if !r.Mapped? && page >= SLOT_PAGES {
      var below := page - SLOT_PAGES;
      RetryIsSafe(m1, space, below, count);
    }
  }

  /** The child's stack has its parent's shape and a slot in which no page of its
      size was mapped, so in particular not the slot of a live stack. */
  lemma ForkIsSafe(m: Mem, space: Space, s: Stack, slots: nat)
    requires StackShape(s) && ForkStack(m, space, s, slots).1.Some?
    ensures var (m', c) := ForkStack(m, space, s, slots);
            && StackShape(c.value) && c.value.usage == s.usage && SlotsBelow(c.value.start, s.start)
            && RunFree(m, space, c.value.start, Len(c.value)) && RunMapped(m', space, c.value.start, Len(c.value))
            && (forall l :: l in m.pages ==> l in m'.pages && m'.pages[l] == m.pages[l])
            && (forall l :: l in m'.pages && l !in m.pages ==> l.space == space)
  {
    hide Retry;
    var page := s.start - slots * SLOT_PAGES;
    WholeSlots(page, s.start, slots);
    ForkAtIsSafe(m, space, s, page);
  }

  lemma ForkAtIsSafe(m: Mem, space: Space, s: Stack, page: Page)
    requires StackShape(s) && SlotsBelow(page, s.start) && Retry(m, space, page, s.usage).1.Some?
    ensures var (m', p) := Retry(m, space, page, s.usage);
            var c := Stack(p.value, p.value + s.usage, s.usage);
            && StackShape(c) && SlotsBelow(c.start, s.start)
            && RunFree(m, space, c.start, Len(c)) && RunMapped(m', space, c.start, Len(c))
            && (forall l :: l in m.pages ==> l in m'.pages && m'.pages[l] == m.pages[l])
            && (forall l :: l in m'.pages && l !in m.pages ==> l.space == space)
  {
    RetryIsSafe(m, space, page, s.usage);
    var p := Retry(m, space, page, s.usage).1.value;
    SlotsBelowTrans(p, page, s.start);
    WholeSlotsEnd(Stack(p, p + s.usage, s.usage), s);
  }

  lemma {:induction false} SlotsBelowTrans(a: Page, b: Page, c: Page)
    requires SlotsBelow(a, b) && SlotsBelow(b, c)
    ensures SlotsBelow(a, c)
    decreases c
  {
    if b != c {
      SlotsBelowTrans(a, b, c - SLOT_PAGES);
    }
  }

  lemma {:induction false} WholeSlots(page: Page, start: Page, slots: nat)
    requires page + slots * SLOT_PAGES == start
    ensures SlotsBelow(page, start)
    decreases slots
  {
    if slots > 0 {
      WholeSlots(page, start - SLOT_PAGES, slots - 1);
    }
  }

  lemma {:induction false} SlotsBelowMod(at: Page, page: Page)
    requires SlotsBelow(at, page)
    ensures (page - at) % SLOT_PAGES == 0
    decreases page
  {
    if at != page {
      SlotsBelowMod(at, page - SLOT_PAGES);
    }
  }

  lemma WholeSlotsEnd(c: Stack, s: Stack)
    requires StackShape(s) && SlotsBelow(c.start, s.start) && c.end == c.start + s.usage
    ensures c.end % SLOT_PAGES == 0
  {
    SlotsBelowMod(c.start, s.start);
    assert s.end - c.end == s.start - c.start;
  }

  // ---------------------------------------------------------------------------
  // Frames and bytes
  // ---------------------------------------------------------------------------

  /** The loop as primitive operations. */
  function Tries(m: Mem, space: Space, page: Page, count: nat): (ops: seq<MemOp>)
    ensures |ops| > 0
    decreases page
  {
    var (m', r) := MapPages(m, space, page, count);
    [MapRun(space, page, count)] +
    if r.Mapped? || page < SLOT_PAGES then [] else Tries(m', space, page - SLOT_PAGES, count)
  }

  lemma {:induction false} TriesApply(m: Mem, space: Space, page: Page, count: nat)
    ensures ApplyAll(m, Tries(m, space, page, count)) == Retry(m, space, page, count).0
    decreases page
  {
    hide MapPages;
    var op := MapRun(space, page, count);
    var (m1, r) := MapPages(m, space, page, count);
    if r.Mapped? || page < SLOT_PAGES {
      OneOp(m, op);
    } else {
      ApplyAllFirst(m, op, Tries(m1, space, page - SLOT_PAGES, count));
      TriesApply(m1, space, page - SLOT_PAGES, count);
    }
  }

  /** Every attempt but a last successful one fails, and so may lose a frame. */
  lemma {:induction false} TriesFail(m: Mem, space: Space, page: Page, count: nat)
    ensures Failures(m, Tries(m, space, page, count)) ==
            |Tries(m, space, page, count)| - if Retry(m, space, page, count).1.Some? then 1 else 0
    decreases page
  {
    hide MapPages;
    var op := MapRun(space, page, count);
    var (m1, r) := MapPages(m, space, page, count);
    if r.Mapped? || page < SLOT_PAGES {
      OneOp(m, op);
    } else {
      ApplyAllFirst(m, op, Tries(m1, space, page - SLOT_PAGES, count));
      TriesFail(m1, space, page - SLOT_PAGES, count);
    }
  }

  /** With frames enough for an attempt each, every one that fails loses a frame. */
  lemma {:induction false} TriesLose(m: Mem, space: Space, page: Page, count: nat, last: Page)
    requires Available(m.pool) >= FramesFor(count, page, last) && Retry(m, space, page, count).1 == Some(last)
    requires count <= SLOT_PAGES
    ensures Losses(m, Tries(m, space, page, count)) == |Tries(m, space, page, count)| - 1
    decreases page
  {
    hide MapPages, FrameTaken;
    var op := MapRun(space, page, count);
    var (m1, r) := MapPages(m, space, page, count);
    MapPagesSucceeds(m, space, page, count);
    FrameTakenIf(m, space, page, count);
    if r.Mapped? || page < SLOT_PAGES {
      OneOp(m, op);
    } else {
      var below := page - SLOT_PAGES;
      ApplyAllFirst(m, op, Tries(m1, space, below, count));
      StraysAbove(m1, space, below, count);
      TriesLose(m1, space, below, count, last);
    }
  }

  lemma OneOp(m: Mem, op: MemOp)
    ensures ApplyAll(m, [op]) == Apply(m, op) && Failures(m, [op]) == if Fails(m, op) then 1 else 0
    ensures Losses(m, [op]) == if Loses(m, op) then 1 else 0
  {
    assert [op][..0] == [];
  }

  /** A fork's memory: the child's stack holds the parent's bytes, each at the
      parent's address less the distance between the two stacks, and no byte of
      any page that was mapped before changes, in any space. */
  lemma ForkCopies(m: Mem, ram: Ram, space: Space, s: Stack, slots: nat, o: Owners) returns (o': Owners)
    requires Owned(m, o) && StackShape(s) && RunMapped(m, space, s.start, Len(s))
    requires ForkStack(m, space, s, slots).1.Some?
    ensures var (m', c) := ForkStack(m, space, s, slots);
            var ram' := CopyPages(m', ram, space, s.start, c.value.start, s.usage);
            && Owned(m', o')
            && (forall l, off :: InRun(l, space, c.value.start, s.usage) ==>
                  Peek(m', ram', l, off) == Peek(m, ram, Twin(l, c.value.start, s.start), off))
            && (forall l, off :: l in m.pages ==> Peek(m', ram', l, off) == Peek(m, ram, l, off))
  {
    hide ForkStack, CopyPages, Owned;
    var (m', c') := ForkStack(m, space, s, slots);
    var c := c'.value;
    o' := ForkOwned(m, space, s, slots, o);
    OwnedIsInjective(m', o');
    ForkIsSafe(m, space, s, slots);
    ApartIfFree(m, space, s, c);
    CopyPagesIs(m', ram, space, s.start, c.start, s.usage);
    forall l | InRun(l, space, c.start, s.usage) ensures Twin(l, c.start, s.start) in m.pages {
      assert InRun(Twin(l, c.start, s.start), space, s.start, Len(s));
    }
  }

  lemma ForkOwned(m: Mem, space: Space, s: Stack, slots: nat, o: Owners) returns (o': Owners)
    requires Owned(m, o) && ForkStack(m, space, s, slots).1.Some?
    ensures Owned(ForkStack(m, space, s, slots).0, o')
  {
    hide Retry, ApplyAll, Owned;
    var page := s.start - slots * SLOT_PAGES;
    TriesApply(m, space, page, s.usage);
    var lost;
    o', lost := ApplyAllOwned(m, Tries(m, space, page, s.usage), o);
  }

  lemma ApartIfFree(m: Mem, space: Space, s: Stack, c: Stack)
    requires RunMapped(m, space, s.start, Len(s)) && RunFree(m, space, c.start, Len(c))
    requires StackShape(s) && StackShape(c) && SlotsBelow(c.start, s.start)
    ensures c.end <= s.start
  {
    if c.end > s.start {
      assert InRun(Leaf(space, s.start), space, s.start, Len(s)) && InRun(Leaf(space, s.start), space, c.start, Len(c));
    }
  }

  lemma SlotNumber(s: Stack, addr: nat) returns (k: nat)
    requires StackShape(s) && s.end - SLOT_PAGES <= PageOf(addr) < s.end
    ensures s.end == (k + 1) * SLOT_PAGES && addr / Kernel.SLOT == k
  {
    k := s.end / SLOT_PAGES - 1;
    SlotOf(addr, k);
  }

  /** The child's stack pointer is the parent's less that same distance. */
  lemma ChildStackPointer(s: Stack, c: Stack, sp: nat)
    requires StackShape(s) && StackShape(c) && c.usage == s.usage && OnStack(s, sp)
    ensures Kernel.ChildSp(sp, c.start * PAGE_SIZE) + (s.start - c.start) * PAGE_SIZE == sp
  {
    OnStackIs(s, sp);
    assert c.start * PAGE_SIZE / PAGE_SIZE == c.start;
    var ks := SlotNumber(s, sp);
    var kc := SlotNumber(c, c.start * PAGE_SIZE);
    assert s.start - c.start == (ks - kc) * SLOT_PAGES;
  }

  /** What has been cleaned up is not cleaned up again, though the range is still recorded. */
  lemma FreedOnce(m: Mem, space: Space, s: Stack)
    requires StackShape(s) && RunMapped(m, space, s.start, Len(s))
    ensures var (m', ok) := FreeStack(m, space, s);
            ok && RunFree(m', space, s.start, Len(s)) && FreeStack(m', space, s.(usage := 0)) == (m', true)
  {
    UnmapPagesIs(m, space, s.start, Len(s));
  }

  // ---------------------------------------------------------------------------
  // The stack object
  // ---------------------------------------------------------------------------

  class UserStack {
    var start: Page
    var end: Page
    var usage: nat

    function Value(): Stack
      reads this
    {
      Stack(start, end, usage)
    }

    constructor (s: Stack)
      ensures Value() == s
    {
      start, end, usage := s.start, s.end, s.usage;
    }

    method Init(space: Space, pid: Pid, mapper: Mapper, alloc: FrameAllocator) returns (ok: bool)
      modifies this, mapper, alloc
      ensures var (m, s) := InitStack(old(mapper.View(alloc)), space, pid);
              && mapper.View(alloc) == m && (ok <==> s.Some?)
              && Value() == (if ok then s.value else old(Value()))
    {
      if pid == 0 || (pid - 1) * SLOT_PAGES + 1 > STACK_MAX_PAGE {
        return false;
      }
      var bottom := STACK_MAX_PAGE - (pid - 1) * SLOT_PAGES - 1;
      var r := mapper.MapRange(space, bottom, 1, alloc);
      if !r.Mapped? {
        return false;
      }
      start, end, usage := bottom, bottom + 1, 1;
      ok := true;
    }

    method HandlePageFault(space: Space, addr: nat, mapper: Mapper, alloc: FrameAllocator) returns (r: GrowResult)
      modifies this, mapper, alloc
      ensures (mapper.View(alloc), Value(), r) == Grow(old(mapper.View(alloc)), space, old(Value()), addr)
    {
      if !OnStack(Value(), addr) {
        return OffStack;
      }
      var page := PageOf(addr);
      if page >= start {
        return NotBelow;
      }
      var m := mapper.MapRange(space, page, start - page, alloc);
      if !m.Mapped? {
        return MapFailed;
      }
      start := page;
      usage := Len(Value());
      r := Grown;
    }

    /** The loop that looks for room. */
    method FindSlot(space: Space, top: Page, mapper: Mapper, alloc: FrameAllocator) returns (p: Option<Page>)
      modifies mapper, alloc
      ensures (mapper.View(alloc), p) == Retry(old(mapper.View(alloc)), space, top, usage)
    {
      var page: Page := top;
      while true
        invariant Retry(mapper.View(alloc), space, page, usage) == Retry(old(mapper.View(alloc)), space, top, usage)
        decreases page
      {
        var r := mapper.MapRange(space, page, usage, alloc);
        if r.Mapped? {
          return Some(page);
        }
        if page < SLOT_PAGES {
          return None;
        }
        page := page - SLOT_PAGES;
      }
    }

    method FindRoom(space: Space, slots: nat, mapper: Mapper, alloc: FrameAllocator) returns (c: Option<Stack>)
      modifies mapper, alloc
      ensures (mapper.View(alloc), c) == ForkStack(old(mapper.View(alloc)), space, Value(), slots)
    {
      if start < slots * SLOT_PAGES {
        return None;
      }
      var page := FindSlot(space, start - slots * SLOT_PAGES, mapper, alloc);
      c := if page.None? then None else Some(Stack(page.value, page.value + usage, usage));
    }

    /** Finds room for the child's stack and copies the parent's pages there. */
    method Fork(space: Space, slots: nat, mapper: Mapper, alloc: FrameAllocator, ram: PhysicalMemory)
        returns (c: Option<Stack>)
      requires StackShape(Value()) && RunMapped(mapper.View(alloc), space, start, Len(Value()))
      modifies mapper, alloc, ram
      ensures (mapper.View(alloc), c) == ForkStack(old(mapper.View(alloc)), space, Value(), slots)
      ensures c.None? ==> ram.bytes == old(ram.bytes)
      ensures c.Some? ==> ram.bytes == CopyPages(mapper.View(alloc), old(ram.bytes), space, start, c.value.start, usage)
    {
      c := FindRoom(space, slots, mapper, alloc);
      if c.Some? {
        BothMapped(old(mapper.View(alloc)), space, Value(), slots);
        ram.ClonePages(space, start, c.value.start, usage, mapper, alloc);
      }
    }

    method CleanUp(space: Space, mapper: Mapper, alloc: FrameAllocator) returns (ok: bool)
      modifies this, mapper, alloc
      ensures (mapper.View(alloc), ok) == FreeStack(old(mapper.View(alloc)), space, old(Value()))
      ensures Value() == old(Value()).(usage := if ok then 0 else old(usage))
    {
      ok := true;
      if usage != 0 {
        ok := mapper.UnmapRange(space, start, Len(Value()), alloc);
        if ok {
          usage := 0;
        }
      }
    }
  }

  lemma BothMapped(m: Mem, space: Space, s: Stack, slots: nat)
    requires StackShape(s) && RunMapped(m, space, s.start, Len(s)) && ForkStack(m, space, s, slots).1.Some?
    ensures var (m', c) := ForkStack(m, space, s, slots);
            RunMapped(m', space, s.start, s.usage) && RunMapped(m', space, c.value.start, s.usage)
  {
    ForkIsSafe(m, space, s, slots);
  }
}
