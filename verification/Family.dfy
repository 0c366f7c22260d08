/** The memory of a fork family: processes that share one page table, each with a
    stack of its own, a common heap, and code recorded only by the process that
    loaded it. */
module Families {
  import opened Basics
  import opened Frames
  import opened Paging
  import opened Ownership
  import opened Heaps
  import opened Stacks
  import opened Loader

  /** `code` is held by the process `loader`. */
  datatype Family = Family(mem: Mem, end: nat, live: map<Pid, Stack>, code: seq<Range>, loader: Pid)

  datatype FamilyOp =
    | Brk(to: Option<nat>, tracing: bool)
    | Fault(pid: Pid, addr: nat)
    | Fork(pid: Pid, child: Pid, slots: nat)
    | Exit(pid: Pid, debug: bool, tables: seq<Table>)
    | Others(ops: seq<MemOp>)

  function FreeCode(m: Mem, space: Space, code: seq<Range>): (Mem, bool)
    decreases |code|
  {
    if code == [] then (m, true)
    else
      var (m1, ok) := UnmapPages(m, space, code[0].first, RangeLen(code[0]));
      if ok then FreeCode(m1, space, code[1..]) else (m1, false)
  }

  function RangeLen(r: Range): nat { if r.first <= r.last then r.last - r.first + 1 else 0 }

  /** How clean-up ends: others still use the page table, everything shared has been
      freed, an unmapping failed, or the kernel stops on an assertion. */
  datatype TearResult = Kept | Freed | Broken | Stops

  /** The last process to leave frees the heap and the code it holds itself. */
  function FreeShared(h: HeapState, space: Space, code: seq<Range>, debug: bool): (HeapState, TearResult) {
    var (h', r) := FreeHeap(h, space, debug);
    if r == None then (h', Stops)
    else if !r.value then (h', Broken)
    else
      var (m, ok) := FreeCode(h'.mem, space, code);
      (h'.(mem := m), if ok then Freed else Broken)
  }

  /** Clean-up by one process up to the tables: its stack, and the shared parts when
      it is the last. */
  function TearDown(h: HeapState, space: Space, s: Stack, last: bool, code: seq<Range>, debug: bool)
    : (HeapState, TearResult)
  {
    var (m, ok) := FreeStack(h.mem, space, s);
    if !ok then (h.(mem := m), Broken)
    else if last then FreeShared(h.(mem := m), space, code, debug)
    else (h.(mem := m), Kept)
  }

  /** A page is looked up through this table. */
  predicate Serves(m: Mem, t: Table) { exists l <- m.pages :: t in Path(l) }

  /** The tables to free in the end: those that serve no page, and the top one. */
  function SpareTables(m: Mem, space: Space): set<Table> {
    set t | t in m.tables && t.space == space && (t == Top(space) || !Serves(m, t))
  }

  function FreeTables(m: Mem, tables: seq<Table>): Mem
    decreases |tables|
  {
    if tables == [] then m else FreeTables(Apply(m, FreeTable(tables[0])), tables[1..])
  }

  lemma {:induction false} FreeTablesThen(m: Mem, tables: seq<Table>, t: Table)
    ensures FreeTables(m, tables + [t]) == Apply(FreeTables(m, tables), FreeTable(t))
    decreases |tables|
  {
    if tables == [] {
      assert ([] + [t])[1..] == [];
    } else {
      assert (tables + [t])[1..] == tables[1..] + [t];
      FreeTablesThen(Apply(m, FreeTable(tables[0])), tables[1..], t);
    }
  }

  /** The state of clean-up when the tables come to be freed. */
  function TornDown(v: Family, space: Space, pid: Pid, debug: bool): (HeapState, TearResult)
    requires pid in v.live
  {
    var code := if pid == v.loader then v.code else [];
    TearDown(HeapState(v.mem, v.end), space, v.live[pid], v.live - {pid} == map[], code, debug)
  }

  function Leave(v: Family, space: Space, pid: Pid, debug: bool, tables: seq<Table>): Family
    requires pid in v.live
  {
    var (h, r) := TornDown(v, space, pid, debug);
    var m := if r.Freed? then FreeTables(h.mem, tables) else h.mem;
    v.(mem := m, end := h.end, live := v.live - {pid})
  }

  /** What a step needs: a live process, an unused pid for a child, a fault on a
      page that is not mapped, other families keeping to their own spaces.  The order
      in which the spare tables are freed is open. */
  predicate Allowed(v: Family, space: Space, op: FamilyOp) {
    match op
    case Brk(_, _) => v.live != map[]
    case Fault(pid, addr) => pid in v.live && Leaf(space, PageOf(addr)) !in v.mem.pages
    case Fork(pid, child, _) => pid in v.live && child !in v.live && child != v.loader
    case Exit(pid, debug, tables) =>
      && pid in v.live
      && var spare := SpareTables(TornDown(v, space, pid, debug).0.mem, space);
         (forall t <- tables :: t in spare) && (forall t <- spare :: t in tables)
    case Others(ops) => forall x <- ops :: SpaceOf(x) != space
  }

  function SpaceOf(op: MemOp): Space {
    if op.FreeTable? then op.t.space else op.space
  }

  /** `None`: the kernel stops. */
  function Step(v: Family, space: Space, op: FamilyOp): Option<Family>
    requires Allowed(v, space, op)
  {
    match op
    case Brk(to, tracing) =>
      var (h, r) := MoveEnd(HeapState(v.mem, v.end), space, to, tracing);
      if r.Stopped? then None else Some(v.(mem := h.mem, end := h.end))
    case Fault(pid, addr) =>
      var (m, s, r) := Grow(v.mem, space, v.live[pid], addr);
      if r.NotBelow? then None else Some(v.(mem := m, live := v.live[pid := s]))
    case Fork(pid, child, slots) =>
      var (m, s) := ForkStack(v.mem, space, v.live[pid], slots);
      if s.None? then None else Some(v.(mem := m, live := v.live[child := s.value]))
    case Exit(pid, debug, tables) =>
      if TornDown(v, space, pid, debug).1.Stops? then None else Some(Leave(v, space, pid, debug, tables))
    case Others(ops) => Some(v.(mem := ApplyAll(v.mem, ops)))
  }

  // ---------------------------------------------------------------------------
  // Every mapped page has one holder, or is loose
  // ---------------------------------------------------------------------------

  datatype Claim = OfStack(pid: Pid) | OfHeap | OfCode | Loose

  type Claims = map<Page, Claim>

  ghost predicate PagesClaimed(m: Mem, space: Space, claims: Claims) {
    forall p :: p in claims <==> Leaf(space, p) in m.pages
  }

  predicate OnRange(s: Stack, p: Page) { s.start <= p < s.end }

  ghost predicate StacksClaimed(live: map<Pid, Stack>, claims: Claims) {
    && (forall pid :: pid in live ==> StackShape(live[pid]))
    && (forall pid, p :: pid in live && OnRange(live[pid], p) ==> p in claims && claims[p] == OfStack(pid))
    && (forall p :: p in claims && claims[p].OfStack? ==> claims[p].pid in live && OnRange(live[claims[p].pid], p))
  }

  predicate OnHeap(end: nat, p: Page) { HEAP_PAGE <= p < PagesUp(end) }

  ghost predicate HeapClaimed(end: nat, claims: Claims) {
    && HEAP_START <= end <= HEAP_END
    && (forall p :: OnHeap(end, p) <==> p in claims && claims[p] == OfHeap)
  }

  predicate InRange(r: Range, p: Page) { r.first <= p <= r.last }

  predicate OnCode(code: seq<Range>, p: Page) { exists r <- code :: InRange(r, p) }

  ghost predicate RangesApart(code: seq<Range>) {
    forall i, j, p :: 0 <= i < j < |code| && InRange(code[i], p) ==> !InRange(code[j], p)
  }

  ghost predicate CodeClaimed(v: Family, claims: Claims) {
    && RangesApart(v.code)
    && (forall p :: p in claims && claims[p] == OfCode <==> v.loader in v.live && OnCode(v.code, p))
  }

  ghost predicate Accounted(v: Family, space: Space, claims: Claims) {
    && PagesClaimed(v.mem, space, claims) && StacksClaimed(v.live, claims)
    && HeapClaimed(v.end, claims) && CodeClaimed(v, claims)
  }

  /** Live stacks are in distinct slots. */
  lemma DistinctSlots(v: Family, space: Space, claims: Claims, p: Pid, q: Pid)
    requires Accounted(v, space, claims) && p in v.live && q in v.live && p != q
    ensures StackShape(v.live[p]) && StackShape(v.live[q]) && v.live[p].end != v.live[q].end
  {
    var top := v.live[p].end - 1;
    assert OnRange(v.live[p], top) && claims[top] == OfStack(p);
    assert OnRange(v.live[q], v.live[q].end - 1);
  }

  // ---------------------------------------------------------------------------
  // Steps that map pages
  // ---------------------------------------------------------------------------

  function SpacePages(m: Mem, space: Space): set<Page> { set l | l in m.pages && l.space == space :: l.page }

  function LooseOf(claims: Claims): set<Page> { set p | p in claims && claims[p] == Loose }

  /** The new pages of `m` belong to `c` where they lie from `lo` to `hi`, and are
      otherwise loose. */
  function Absorb(m: Mem, space: Space, claims: Claims, c: Claim, lo: Page, hi: Page): Claims {
    map p | p in SpacePages(m, space) :: if p in claims then claims[p] else if lo <= p < hi then c else Loose
  }

  /** The pages that a step added without recording them. */
  function Strays(m: Mem, m': Mem, space: Space, lo: Page, hi: Page): set<Page> {
    set p | p in SpacePages(m', space) && p !in SpacePages(m, space) && !(lo <= p < hi)
  }

  lemma AbsorbClaims(m: Mem, m': Mem, space: Space, claims: Claims, c: Claim, lo: Page, hi: Page)
    requires PagesClaimed(m, space, claims) && c != Loose
    requires forall l :: l in m.pages ==> l in m'.pages
    ensures var claims' := Absorb(m', space, claims, c, lo, hi);
            && PagesClaimed(m', space, claims') && LooseOf(claims') == LooseOf(claims) + Strays(m, m', space, lo, hi)
            && (forall p :: p in claims ==> p in claims' && claims'[p] == claims[p])
            && (forall p :: p in claims' && p !in claims ==> claims'[p] == if lo <= p < hi then c else Loose)
  {
    forall p ensures p in SpacePages(m, space) <==> Leaf(space, p) in m.pages {}
    forall p ensures p in SpacePages(m', space) <==> Leaf(space, p) in m'.pages {}
  }

  /** The claims may grow by pages of `c` from `lo` to `hi` and by loose ones. */
  ghost predicate Grows(claims: Claims, claims': Claims, c: Claim, lo: Page, hi: Page) {
    && (forall p :: p in claims ==> p in claims' && claims'[p] == claims[p])
    && (forall p :: p in claims' && p !in claims ==> claims'[p] == if lo <= p < hi then c else Loose)
  }

  lemma HeapGrows(v: Family, space: Space, claims: Claims, claims': Claims, m': Mem, end: nat)
    requires Accounted(v, space, claims) && PagesClaimed(m', space, claims') && HEAP_START <= end <= HEAP_END
    requires Grows(claims, claims', OfHeap, PagesUp(v.end), PagesUp(end))
    requires forall p :: PagesUp(v.end) <= p < PagesUp(end) ==> p in claims' && p !in claims
    requires PagesUp(end) >= PagesUp(v.end)
    ensures Accounted(v.(mem := m', end := end), space, claims')
  {
    EndPages(v.end);
  }

  lemma StacksGrow(live: map<Pid, Stack>, claims: Claims, claims': Claims, pid: Pid, s: Stack, lo: Page, hi: Page)
    requires StacksClaimed(live, claims) && StackShape(s) && Grows(claims, claims', OfStack(pid), lo, hi)
    requires forall p :: lo <= p < hi ==> p in claims' && p !in claims
    requires if pid in live then s.start == lo <= hi == live[pid].start && s.end == live[pid].end
             else s.start == lo && s.end == hi
    ensures StacksClaimed(live[pid := s], claims')
  {
    var live' := live[pid := s];
    forall q, p: Page | q in live' && OnRange(live'[q], p) ensures p in claims' && claims'[p] == OfStack(q) {
      if q == pid && pid in live && p >= hi {
        assert OnRange(live[pid], p);
      } else if q != pid {
        assert OnRange(live[q], p);
      }
    }
  }

  /** New pages of a stack, or loose ones, are neither heap nor code. */
  lemma SharedUntouched(v: Family, claims: Claims, claims': Claims, c: Claim, lo: Page, hi: Page)
    requires HeapClaimed(v.end, claims) && CodeClaimed(v, claims) && Grows(claims, claims', c, lo, hi) && c.OfStack?
    ensures HeapClaimed(v.end, claims') && CodeClaimed(v, claims')
  {
    hide OnCode, RangesApart;
  }

  lemma StackGrows(v: Family, space: Space, claims: Claims, claims': Claims, m': Mem, pid: Pid, s: Stack, lo: Page, hi: Page)
    requires Accounted(v, space, claims) && PagesClaimed(m', space, claims') && StackShape(s)
    requires Grows(claims, claims', OfStack(pid), lo, hi)
    requires forall p :: lo <= p < hi ==> p in claims' && p !in claims
    requires if pid in v.live then s.start == lo <= hi == v.live[pid].start && s.end == v.live[pid].end
             else pid != v.loader && s.start == lo && s.end == hi
    ensures Accounted(v.(mem := m', live := v.live[pid := s]), space, claims')
  {
    StacksGrow(v.live, claims, claims', pid, s, lo, hi);
    SharedUntouched(v, claims, claims', OfStack(pid), lo, hi);
    hide StacksClaimed, HeapClaimed, PagesClaimed, Grows;
  }

  lemma MapAbsorbs(m: Mem, space: Space, claims: Claims, page: Page, count: nat, c: Claim) returns (claims': Claims)
    requires PagesClaimed(m, space, claims) && c != Loose
    ensures var (m', r) := MapPages(m, space, page, count);
            var hi := if r.Mapped? then page + count else page;
            && PagesClaimed(m', space, claims') && Grows(claims, claims', c, page, hi)
            && LooseOf(claims') == LooseOf(claims) + Left(m, space, page, count)
            && (forall p :: page <= p < hi ==> p in claims' && p !in claims)
  {
    var (m', r) := MapPages(m, space, page, count);
    var hi := if r.Mapped? then page + count else page;
    var j := MapPagesIs(m, space, page, count);
    claims' := Absorb(m', space, claims, c, page, hi);
    AbsorbClaims(m, m', space, claims, c, page, hi);
    forall p ensures p in Strays(m, m', space, page, hi) <==> p in Left(m, space, page, count) {
      assert p in SpacePages(m', space) <==> p in SpacePages(m, space) || InRun(Leaf(space, p), space, page, j);
    }
    forall p: Page | page <= p < hi ensures p in claims' && p !in claims {
      assert InRun(Leaf(space, p), space, page, j);
    }
  }

  /** Pages of one run are unmapped, and their claims dropped. */
  lemma UnmapDrops(m: Mem, space: Space, claims: Claims, page: Page, count: nat) returns (claims': Claims)
    requires PagesClaimed(m, space, claims) && forall p :: page <= p < page + count ==> p in claims
    ensures var (m', ok) := UnmapPages(m, space, page, count);
            && ok && PagesClaimed(m', space, claims')
            && (forall p :: p in claims' <==> p in claims && !(page <= p < page + count))
            && (forall p :: p in claims' ==> claims'[p] == claims[p])
  {
    claims' := map p | p in claims && !(page <= p < page + count) :: claims[p];
    forall l | InRun(l, space, page, count) ensures l in m.pages {
      assert l == Leaf(space, l.page);
    }
    UnmapPagesIs(m, space, page, count);
    var m' := UnmapPages(m, space, page, count).0;
    forall p: Page ensures p in claims' <==> Leaf(space, p) in m'.pages {
      assert InRun(Leaf(space, p), space, page, count) <==> page <= p < page + count;
    }
  }

  // ---------------------------------------------------------------------------
  // Each step
  // ---------------------------------------------------------------------------

  function CodePages(code: seq<Range>): set<Page> {
    set r, p: Page | r in code && r.first <= p <= r.last && InRange(r, p) :: p
  }

  /** The pages that a failed mapping of a run leaves behind. */
  function Left(m: Mem, space: Space, page: Page, count: nat): set<Page> {
    if MapPages(m, space, page, count).1.Mapped? then {} else PageRun(page, Reached(m, space, page, count))
  }

  /** The pages that a step leaves mapped with nobody to free them: what a failed
      mapping had reached already, the code when its loader is not the last to go,
      and the last page of a heap whose end is not on a page boundary. */
  function Gap(v: Family, space: Space, op: FamilyOp): set<Page>
    requires Allowed(v, space, op)
  {
    match op
    case Brk(to, _) =>
      if to.None? || !(HEAP_START <= to.value <= HEAP_END) || PagesUp(to.value) <= PagesUp(v.end) then {}
      else Left(v.mem, space, PagesUp(v.end), PagesUp(to.value) - PagesUp(v.end))
    case Fault(pid, addr) => FaultGap(v.mem, space, v.live[pid], addr)
    case Fork(pid, child, slots) =>
      var s := v.live[pid];
      if s.start < slots * SLOT_PAGES then {}
      else StrayPages(v.mem, space, s.start - slots * SLOT_PAGES, s.usage)
    case Exit(pid, _, _) =>
      if v.live - {pid} != map[] then (if pid == v.loader then CodePages(v.code) else {})
      else if v.end % PAGE_SIZE != 0 then {v.end / PAGE_SIZE} else {}
    case Others(_) => {}
  }

  lemma HeapShrinks(v: Family, space: Space, claims: Claims, end: nat) returns (claims': Claims)
    requires Accounted(v, space, claims) && HEAP_START <= end <= HEAP_END && PagesUp(end) <= PagesUp(v.end)
    ensures var (m', ok) := UnmapPages(v.mem, space, PagesUp(end), PagesUp(v.end) - PagesUp(end));
            ok && Accounted(v.(mem := m', end := end), space, claims')
    ensures LooseOf(claims') == LooseOf(claims)
  {
    EndPages(end);
    forall p: Page | PagesUp(end) <= p < PagesUp(v.end) ensures p in claims && claims[p] == OfHeap {
      assert OnHeap(v.end, p);
    }
    claims' := UnmapDrops(v.mem, space, claims, PagesUp(end), PagesUp(v.end) - PagesUp(end));
  }

  lemma HeapMoves(v: Family, space: Space, claims: Claims, end: nat) returns (claims': Claims)
    requires Accounted(v, space, claims) && HEAP_START <= end <= HEAP_END
    ensures var (m', ok) := Resize(v.mem, space, PagesUp(v.end), PagesUp(end));
            && Accounted(v.(mem := m', end := if ok then end else v.end), space, claims')
            && LooseOf(claims') == LooseOf(claims) +
               if PagesUp(end) <= PagesUp(v.end) then {}
               else Left(v.mem, space, PagesUp(v.end), PagesUp(end) - PagesUp(v.end))
  {
    hide MapPages, UnmapPages;
    var was, now := PagesUp(v.end), PagesUp(end);
    if now >= was {
      claims' := MapAbsorbs(v.mem, space, claims, was, now - was, OfHeap);
      var (m', r) := MapPages(v.mem, space, was, now - was);
      HeapGrows(v, space, claims, claims', m', if r.Mapped? then end else v.end);
    } else {
      claims' := HeapShrinks(v, space, claims, end);
    }
  }

  lemma BrkAccounted(v: Family, space: Space, claims: Claims, op: FamilyOp) returns (claims': Claims)
    requires Accounted(v, space, claims) && op.Brk? && Allowed(v, space, op) && Step(v, space, op).Some?
    ensures Accounted(Step(v, space, op).value, space, claims')
    ensures LooseOf(claims') == LooseOf(claims) + Gap(v, space, op)
  {
    hide Accounted, Resize, LooseOf;
    claims' := claims;
    if op.to.Some? && HEAP_START <= op.to.value <= HEAP_END {
      claims' := HeapMoves(v, space, claims, op.to.value);
    }
  }

  lemma StackMapped(v: Family, space: Space, claims: Claims, pid: Pid)
    requires Accounted(v, space, claims) && pid in v.live
    ensures StackShape(v.live[pid]) && RunMapped(v.mem, space, v.live[pid].start, Len(v.live[pid]))
  {
    var s := v.live[pid];
    forall l | InRun(l, space, s.start, Len(s)) ensures l in v.mem.pages {
      assert OnRange(s, l.page) && l == Leaf(space, l.page);
    }
  }

  /** What a fault on `page` leaves behind when the mapping fails. */
  function FaultGap(m: Mem, space: Space, s: Stack, addr: nat): set<Page> {
    var page := PageOf(addr);
    if !OnStack(s, addr) || page >= s.start then {} else Left(m, space, page, s.start - page)
  }

  lemma StackReaches(v: Family, space: Space, claims: Claims, pid: Pid, s: Stack, n: nat) returns (claims': Claims)
    requires Accounted(v, space, claims) && pid in v.live && StackShape(s)
    requires s.start + n == v.live[pid].start && s.end == v.live[pid].end
    requires MapPages(v.mem, space, s.start, n).1.Mapped?
    ensures Accounted(v.(mem := MapPages(v.mem, space, s.start, n).0, live := v.live[pid := s]), space, claims')
    ensures LooseOf(claims') == LooseOf(claims)
  {
    assert PagesClaimed(v.mem, space, claims);
    hide MapPages, LooseOf, Accounted, PagesClaimed, Grows, StackShape;
    claims' := MapAbsorbs(v.mem, space, claims, s.start, n, OfStack(pid));
    StackGrows(v, space, claims, claims', MapPages(v.mem, space, s.start, n).0, pid, s, s.start, s.start + n);
  }

  lemma MapLeaves(v: Family, space: Space, claims: Claims, pid: Pid, page: Page, n: nat) returns (claims': Claims)
    requires Accounted(v, space, claims) && !MapPages(v.mem, space, page, n).1.Mapped?
    ensures Accounted(v.(mem := MapPages(v.mem, space, page, n).0), space, claims')
    ensures LooseOf(claims') == LooseOf(claims) + Left(v.mem, space, page, n)
  {
    assert PagesClaimed(v.mem, space, claims);
    hide MapPages, LooseOf, Left, Accounted, PagesClaimed, Grows;
    claims' := MapAbsorbs(v.mem, space, claims, page, n, OfStack(pid));
    NothingGrows(v, space, claims, claims', MapPages(v.mem, space, page, n).0, OfStack(pid), page);
  }

  lemma FaultGrows(v: Family, space: Space, claims: Claims, pid: Pid, addr: nat, s: Stack) returns (claims': Claims)
    requires Accounted(v, space, claims) && pid in v.live && Leaf(space, PageOf(addr)) !in v.mem.pages && s == v.live[pid]
    ensures !Grow(v.mem, space, s, addr).2.NotBelow?
    ensures var (m, grown, _) := Grow(v.mem, space, s, addr);
            Accounted(v.(mem := m, live := v.live[pid := grown]), space, claims')
    ensures LooseOf(claims') == LooseOf(claims) + FaultGap(v.mem, space, s, addr)
  {
    hide Grow, MapPages, LooseOf, OnStack, Accounted, RunMapped, StackShape, Left, PageOf;
    var page := PageOf(addr);
    StackMapped(v, space, claims, pid);
    GrowCases(v.mem, space, s, addr, Grow(v.mem, space, s, addr), page);
    assert v.live[pid := s] == v.live;
    var (m', s', r) := Grow(v.mem, space, s, addr);
    if r.Grown? {
      claims' := StackReaches(v, space, claims, pid, s', s.start - s'.start);
      NothingLeft(v.mem, space, page, s.start - page);
    } else if r.MapFailed? {
      claims' := MapLeaves(v, space, claims, pid, page, s.start - page);
      assert v.(mem := m', live := v.live) == v.(mem := m');
    } else {
      claims' := claims;
      assert v.(mem := m', live := v.live) == v;
    }
  }

  lemma NothingLeft(m: Mem, space: Space, page: Page, count: nat)
    requires MapPages(m, space, page, count).1.Mapped?
    ensures Left(m, space, page, count) == {}
  {
  }

  lemma FaultAccounted(v: Family, space: Space, claims: Claims, op: FamilyOp) returns (claims': Claims)
    requires Accounted(v, space, claims) && op.Fault? && Allowed(v, space, op)
    ensures Step(v, space, op).Some? && Accounted(Step(v, space, op).value, space, claims')
    ensures LooseOf(claims') == LooseOf(claims) + Gap(v, space, op)
  {
    hide Accounted, LooseOf, Grow, FaultGap;
    claims' := FaultGrows(v, space, claims, op.pid, op.addr, v.live[op.pid]);
  }

  /** The fault handler reports success whatever happened, so the instruction is tried
      again.  It then finds its page exactly if the address is on the stack and there
      was a frame for it; off the stack nothing changes and it faults for ever. */
  lemma FaultResolved(v: Family, space: Space, claims: Claims, op: FamilyOp)
    requires Accounted(v, space, claims) && op.Fault? && Allowed(v, space, op)
    ensures Step(v, space, op).Some?
    ensures var l := Leaf(space, PageOf(op.addr));
            && (l in Step(v, space, op).value.mem.pages <==> OnStack(v.live[op.pid], op.addr) && MapPage(v.mem, l).1.Mapped?)
            && (Available(v.mem.pool) >= 4 ==> MapPage(v.mem, l).1.Mapped?)
    ensures !OnStack(v.live[op.pid], op.addr) ==> Step(v, space, op) == Some(v)
  {
    hide Accounted, OnStack, MapPage, MapPages, StackShape, RunMapped, Extends, PageOf;
    var s := v.live[op.pid];
    StackMapped(v, space, claims, op.pid);
    GrowResolves(v.mem, space, s, op.addr);
    GrowCases(v.mem, space, s, op.addr, Grow(v.mem, space, s, op.addr), PageOf(op.addr));
    MapPageIs(v.mem, Leaf(space, PageOf(op.addr)));
    assert v.live[op.pid := s] == v.live;
  }

  lemma NothingGrows(v: Family, space: Space, claims: Claims, claims': Claims, m': Mem, c: Claim, lo: Page)
    requires Accounted(v, space, claims) && PagesClaimed(m', space, claims') && Grows(claims, claims', c, lo, lo)
    ensures Accounted(v.(mem := m'), space, claims')
  {
  }

  lemma InSpace(m: Mem, space: Space, p: Page)
    ensures p in SpacePages(m, space) <==> Leaf(space, p) in m.pages
  {
  }

  lemma ForkStrays(m: Mem, space: Space, s: Stack, slots: nat)
    requires StackShape(s) && ForkStack(m, space, s, slots).1.Some?
    ensures var (m', c) := ForkStack(m, space, s, slots);
            && slots * SLOT_PAGES <= s.start
            && Strays(m, m', space, c.value.start, c.value.end) ==
               StrayPages(m, space, s.start - slots * SLOT_PAGES, s.usage)
  {
    hide Retry, StrayPages, SpacePages;
    var page := s.start - slots * SLOT_PAGES;
    var (m', c) := ForkStack(m, space, s, slots);
    RetryAdds(m, space, page, s.usage);
    StraysAbove(m, space, page, s.usage);
    forall p: Page ensures p in Strays(m, m', space, c.value.start, c.value.end) <==> p in StrayPages(m, space, page, s.usage) {
      InSpace(m, space, p);
      InSpace(m', space, p);
      assert InRun(Leaf(space, p), space, c.value.start, s.usage) <==> c.value.start <= p < c.value.end;
    }
  }

  lemma ForkAccounted(v: Family, space: Space, claims: Claims, op: FamilyOp) returns (claims': Claims)
    requires Accounted(v, space, claims) && op.Fork? && Allowed(v, space, op) && Step(v, space, op).Some?
    ensures Accounted(Step(v, space, op).value, space, claims')
    ensures LooseOf(claims') == LooseOf(claims) + Gap(v, space, op)
  {
    hide LooseOf, ForkStack, StrayPages, Strays, SpacePages, Absorb;
    var s := v.live[op.pid];
    var (m', c') := ForkStack(v.mem, space, s, op.slots);
    var c := c'.value;
    StackMapped(v, space, claims, op.pid);
    ForkIsSafe(v.mem, space, s, op.slots);
    claims' := Absorb(m', space, claims, OfStack(op.child), c.start, c.end);
    AbsorbClaims(v.mem, m', space, claims, OfStack(op.child), c.start, c.end);
    forall p: Page | c.start <= p < c.end ensures p in claims' && p !in claims {
      assert InRun(Leaf(space, p), space, c.start, Len(c));
    }
    StackGrows(v, space, claims, claims', m', op.child, c, c.start, c.end);
    ForkStrays(v.mem, space, s, op.slots);
  }

  lemma {:induction false} FreeCodeDrops(m: Mem, space: Space, claims: Claims, code: seq<Range>) returns (claims': Claims)
    requires PagesClaimed(m, space, claims) && RangesApart(code) && forall p :: OnCode(code, p) ==> p in claims
    ensures var (m', ok) := FreeCode(m, space, code);
            && ok && PagesClaimed(m', space, claims')
            && (forall p :: p in claims' <==> p in claims && !OnCode(code, p))
            && (forall p :: p in claims' ==> claims'[p] == claims[p])
    decreases |code|
  {
    claims' := claims;
    if code != [] {
      var r, rest := code[0], code[1..];
      assert code == [r] + rest;
      forall p ensures OnCode(code, p) <==> InRange(r, p) || OnCode(rest, p) {}
      forall p | OnCode(rest, p) ensures !InRange(r, p) {
        var j :| 0 <= j < |rest| && InRange(rest[j], p);
        assert rest[j] == code[j + 1];
      }
      RangesApartTail(code);
      var claims1 := UnmapDrops(m, space, claims, r.first, RangeLen(r));
      var m1 := UnmapPages(m, space, r.first, RangeLen(r)).0;
      claims' := FreeCodeDrops(m1, space, claims1, rest);
    }
  }

  lemma RangesApartTail(code: seq<Range>)
    requires code != [] && RangesApart(code)
    ensures RangesApart(code[1..])
  {
    forall i, j, p | 0 <= i < j < |code[1..]| && InRange(code[1..][i], p) ensures !InRange(code[1..][j], p) {
      assert code[1..][i] == code[i + 1] && code[1..][j] == code[j + 1];
    }
  }

  /** `c` is `claims` without those of `pid`'s stack. */
  ghost predicate Without(claims: Claims, c: Claims, pid: Pid) {
    && (forall p :: p in c <==> p in claims && claims[p] != OfStack(pid))
    && (forall p :: p in c ==> c[p] == claims[p])
  }

  lemma StackDrops(v: Family, space: Space, claims: Claims, pid: Pid) returns (c: Claims)
    requires Accounted(v, space, claims) && pid in v.live
    ensures var (m, ok) := FreeStack(v.mem, space, v.live[pid]);
            ok && PagesClaimed(m, space, c) && Without(claims, c, pid)
  {
    var s := v.live[pid];
    StackMapped(v, space, claims, pid);
    forall p: Page | s.start <= p < s.start + Len(s) ensures p in claims && claims[p] == OfStack(pid) {
      assert OnRange(s, p);
    }
    c := UnmapDrops(v.mem, space, claims, s.start, Len(s));
  }

  lemma StacksWithout(live: map<Pid, Stack>, claims: Claims, c: Claims, pid: Pid)
    requires StacksClaimed(live, claims) && Without(claims, c, pid)
    ensures StacksClaimed(live - {pid}, c)
  {
    var rest := live - {pid};
    forall q, p: Page | q in rest && OnRange(rest[q], p) ensures p in c && c[p] == OfStack(q) {
      assert OnRange(live[q], p);
    }
  }

  function Abandon(c: Claims): Claims { map p | p in c :: if c[p] == OfCode then Loose else c[p] }

  lemma LooseWithout(claims: Claims, c: Claims, pid: Pid)
    requires Without(claims, c, pid)
    ensures LooseOf(c) == LooseOf(claims)
  {
  }

  lemma LooseAbandoned(v: Family, c: Claims)
    requires CodeClaimed(v, c) && v.loader in v.live
    ensures LooseOf(Abandon(c)) == LooseOf(c) + CodePages(v.code)
  {
    forall p ensures p in CodePages(v.code) <==> p in c && c[p] == OfCode {
      assert OnCode(v.code, p) <==> p in CodePages(v.code);
    }
  }

  lemma AbandonKeeps(m: Mem, space: Space, live: map<Pid, Stack>, end: nat, c: Claims)
    requires PagesClaimed(m, space, c) && StacksClaimed(live, c) && HeapClaimed(end, c)
    ensures PagesClaimed(m, space, Abandon(c)) && StacksClaimed(live, Abandon(c)) && HeapClaimed(end, Abandon(c))
    ensures forall p :: p in Abandon(c) ==> Abandon(c)[p] != OfCode
  {
  }

  /** A process that leaves others behind. */
  lemma ExitEarly(v: Family, space: Space, claims: Claims, pid: Pid, debug: bool) returns (claims': Claims)
    requires Accounted(v, space, claims) && pid in v.live && v.live - {pid} != map[]
    ensures TornDown(v, space, pid, debug).1.Kept?
    ensures forall tables :: Accounted(Leave(v, space, pid, debug, tables), space, claims')
    ensures LooseOf(claims') == LooseOf(claims) + if pid == v.loader then CodePages(v.code) else {}
  {
    hide FreeStack, FreeShared, StacksClaimed, PagesClaimed, LooseOf, Abandon, CodePages;
    var c := StackDrops(v, space, claims, pid);
    var m := FreeStack(v.mem, space, v.live[pid]).0;
    StacksWithout(v.live, claims, c, pid);
    LooseWithout(claims, c, pid);
    claims' := c;
    if pid == v.loader {
      claims' := Abandon(c);
      AbandonKeeps(m, space, v.live - {pid}, v.end, c);
      LooseAbandoned(v, c);
    }
  }

  /** Freeing the shared parts once no stack is left: a debug build stops exactly when
      the heap ends inside its first page. */
  lemma SharedDrops(m: Mem, end: nat, space: Space, c: Claims, code: seq<Range>, debug: bool) returns (c': Claims)
    requires PagesClaimed(m, space, c) && HeapClaimed(end, c) && RangesApart(code)
    requires forall p :: OnCode(code, p) ==> p in c && c[p] == OfCode
    ensures var (h, r) := FreeShared(HeapState(m, end), space, code, debug);
            && r == (if debug && HEAP_START < end < HEAP_START + PAGE_SIZE then Stops else Freed)
            && (r.Freed? ==> h.end == HEAP_START && PagesClaimed(h.mem, space, c'))
            && forall p :: p in c' <==> p in c && !(HEAP_PAGE <= p < end / PAGE_SIZE) && !OnCode(code, p)
  {
    EndPages(end);
    var pages := end / PAGE_SIZE - HEAP_PAGE;
    forall p: Page | HEAP_PAGE <= p < HEAP_PAGE + pages ensures p in c && c[p] == OfHeap {
      assert OnHeap(end, p);
    }
    var c1 := UnmapDrops(m, space, c, HEAP_PAGE, pages);
    c' := FreeCodeDrops(UnmapPages(m, space, HEAP_PAGE, pages).0, space, c1, code);
  }

  lemma LastClaims(v: Family, claims: Claims, c: Claims, c': Claims, pid: Pid)
    requires StacksClaimed(v.live, claims) && HeapClaimed(v.end, claims) && CodeClaimed(v, claims)
    requires Without(claims, c, pid) && pid in v.live && v.live - {pid} == map[]
    requires var code := if pid == v.loader then v.code else [];
             forall p :: p in c' <==> p in c && !(HEAP_PAGE <= p < v.end / PAGE_SIZE) && !OnCode(code, p)
    ensures c'.Keys == LooseOf(claims) + if v.end % PAGE_SIZE != 0 then {v.end / PAGE_SIZE} else {}
  {
    EndPages(v.end);
    forall q | q in v.live ensures q == pid {
      assert q !in v.live - {pid};
    }
    var last := v.end / PAGE_SIZE;
    assert v.end % PAGE_SIZE != 0 ==> OnHeap(v.end, last);
    forall p | p in claims
      ensures p in c' <==> claims[p] == Loose || (v.end % PAGE_SIZE != 0 && p == last)
    {
      match claims[p]
      case OfStack(q) => assert q == pid;
      case OfHeap => assert OnHeap(v.end, p);
      case OfCode => assert v.loader == pid && OnCode(v.code, p);
      case Loose =>
        assert !OnHeap(v.end, p);
        assert pid == v.loader ==> !OnCode(v.code, p);
    }
  }

  lemma AllLoose(v: Family, space: Space, c: Claims)
    requires PagesClaimed(v.mem, space, c) && v.live == map[] && v.end == HEAP_START && RangesApart(v.code)
    ensures var loose: Claims := map p | p in c :: Loose;
            Accounted(v, space, loose) && LooseOf(loose) == c.Keys == SpacePages(v.mem, space)
  {
    EndPages(HEAP_START);
    forall p ensures p in SpacePages(v.mem, space) <==> Leaf(space, p) in v.mem.pages {}
  }

  lemma {:induction false} FreeTablesIs(m: Mem, tables: seq<Table>)
    ensures FreeTables(m, tables).pages == m.pages
    ensures forall t :: t in FreeTables(m, tables).tables <==> t in m.tables && t !in tables
    decreases |tables|
  {
    if tables != [] {
      FreeTablesIs(Apply(m, FreeTable(tables[0])), tables[1..]);
      assert tables == [tables[0]] + tables[1..];
    }
  }

  /** Every table of the space serves a page, and the top one is gone. */
  ghost predicate TablesServe(m: Mem, space: Space) {
    forall t :: t in m.tables && t.space == space ==> t != Top(space) && Serves(m, t)
  }

  lemma SpareTablesGone(m: Mem, space: Space, tables: seq<Table>)
    requires forall t <- SpareTables(m, space) :: t in tables
    ensures TablesServe(FreeTables(m, tables), space)
  {
    FreeTablesIs(m, tables);
  }

  /** The last process: what stays mapped is what was loose, and the last page of a
      heap that does not end on a page boundary; the tables that stay are those on
      the way to such a page. */
  lemma ExitLast(v: Family, space: Space, claims: Claims, op: FamilyOp) returns (claims': Claims)
    requires Accounted(v, space, claims) && op.Exit? && Allowed(v, space, op) && v.live - {op.pid} == map[]
    ensures Step(v, space, op) == None <==> op.debug && HEAP_START < v.end < HEAP_START + PAGE_SIZE
    ensures LooseOf(claims') == LooseOf(claims) + if v.end % PAGE_SIZE != 0 then {v.end / PAGE_SIZE} else {}
    ensures Step(v, space, op).Some? ==>
              var w := Step(v, space, op).value;
              && Accounted(w, space, claims') && SpacePages(w.mem, space) == LooseOf(claims')
              && w.end == HEAP_START && TablesServe(w.mem, space)
  {
    hide FreeStack, FreeShared, PagesClaimed, LooseOf, FreeTables, TablesServe;
    var pid := op.pid;
    var c := StackDrops(v, space, claims, pid);
    var code := if pid == v.loader then v.code else [];
    var m := FreeStack(v.mem, space, v.live[pid]).0;
    var c' := SharedDrops(m, v.end, space, c, code, op.debug);
    LastClaims(v, claims, c, c', pid);
    claims' := map p | p in c' :: Loose;
    var (h, r) := TornDown(v, space, pid, op.debug);
    LooseKeys(c');
    if r.Freed? {
      var w := Leave(v, space, pid, op.debug, op.tables);
      FreeTablesIs(h.mem, op.tables);
      SpareTablesGone(h.mem, space, op.tables);
      SamePagesClaimed(h.mem, w.mem, space, c');
      AllLoose(w, space, c');
    }
  }

  lemma {:induction false} FreeCodeTables(m: Mem, space: Space, code: seq<Range>)
    ensures FreeCode(m, space, code).0.tables == m.tables
    decreases |code|
  {
    if code != [] {
      UnmapPagesIs(m, space, code[0].first, RangeLen(code[0]));
      FreeCodeTables(UnmapPages(m, space, code[0].first, RangeLen(code[0])).0, space, code[1..]);
    }
  }

  lemma TearDownTables(h: HeapState, space: Space, s: Stack, last: bool, code: seq<Range>, debug: bool)
    ensures TearDown(h, space, s, last, code, debug).0.mem.tables == h.mem.tables
  {
    hide UnmapPages, FreeCode;
    UnmapPagesIs(h.mem, space, s.start, Len(s));
    var m := FreeStack(h.mem, space, s).0;
    if h.end > HEAP_START {
      UnmapPagesIs(m, space, HEAP_PAGE, h.end / PAGE_SIZE - HEAP_PAGE);
    }
    FreeCodeTables(FreeHeap(h.(mem := m), space, debug).0.mem, space, code);
  }

  /** A page of this space that is still mapped is reached through `t`. */
  ghost predicate OnTheWay(m: Mem, space: Space, t: Table) {
    exists p: Page :: Leaf(space, p) in m.pages && t in Path(Leaf(space, p))
  }

  /** An exit leaves exactly these tables: all of them while others use the page table;
      after the last one all of other spaces, and of this one exactly those on the way to
      a page that is still mapped, and never the top one. */
  lemma ExitTables(v: Family, space: Space, op: FamilyOp, t: Table)
    requires op.Exit? && Allowed(v, space, op) && Step(v, space, op).Some?
    ensures var w, r := Step(v, space, op).value, TornDown(v, space, op.pid, op.debug).1;
            if r.Freed? then
              t in w.mem.tables <==>
                t in v.mem.tables && (t.space != space || (t != Top(space) && OnTheWay(w.mem, space, t)))
            else w.mem.tables == v.mem.tables
  {
    hide TearDown, FreeTables;
    var code := if op.pid == v.loader then v.code else [];
    TearDownTables(HeapState(v.mem, v.end), space, v.live[op.pid], v.live - {op.pid} == map[], code, op.debug);
    var (h, r) := TornDown(v, space, op.pid, op.debug);
    FreeTablesIs(h.mem, op.tables);
    if t.space == space {
      ServesIs(h.mem, t);
    }
  }

  lemma ServesIs(m: Mem, t: Table)
    ensures Serves(m, t) <==> OnTheWay(m, t.space, t)
  {
    if Serves(m, t) {
      var l :| l in m.pages && t in Path(l);
      assert Leaf(t.space, l.page) == l;
    }
  }

  lemma SamePagesClaimed(m: Mem, m': Mem, space: Space, c: Claims)
    requires PagesClaimed(m, space, c) && m'.pages == m.pages
    ensures PagesClaimed(m', space, c)
  {
  }

  lemma LooseKeys(c: Claims)
    ensures LooseOf(map p | p in c :: Loose) == c.Keys
  {
  }

  /** What other spaces do leaves the pages of this one alone. */
  lemma {:induction false} OthersKeep(m: Mem, space: Space, ops: seq<MemOp>)
    requires forall x <- ops :: SpaceOf(x) != space
    ensures forall p :: Leaf(space, p) in ApplyAll(m, ops).pages <==> Leaf(space, p) in m.pages
    decreases |ops|
  {
    if ops != [] {
      var n := |ops| - 1;
      OthersKeep(m, space, ops[..n]);
      OtherKeeps(ApplyAll(m, ops[..n]), space, ops[n]);
    }
  }

  lemma OtherKeeps(m: Mem, space: Space, op: MemOp)
    requires SpaceOf(op) != space
    ensures forall p :: Leaf(space, p) in Apply(m, op).pages <==> Leaf(space, p) in m.pages
  {
    match op
    case MapRun(x, page, count) => var j := MapPagesIs(m, x, page, count);
    case UnmapRun(x, page, count) =>
      UnmapPagesIs(m, x, page, count);
      forall p ensures !InRun(Leaf(space, p), x, page, count) {}
    case NewSpace(x) => TablesKeepPages(m, [Top(x)]);
    case FreeTable(t) =>
  }

  /** Every step keeps every page accounted for: the stacks in their shape and in
      distinct slots, the heap and the code disjoint from them and from each other,
      all of it mapped; and the loose pages grow by exactly the gap of the step. */
  lemma StepAccounted(v: Family, space: Space, claims: Claims, op: FamilyOp) returns (claims': Claims)
    requires Accounted(v, space, claims) && Allowed(v, space, op) && Step(v, space, op).Some?
    ensures Accounted(Step(v, space, op).value, space, claims')
    ensures LooseOf(claims') == LooseOf(claims) + Gap(v, space, op)
  {
    hide Accounted, LooseOf, Leave, MoveEnd, Grow, ForkStack, ApplyAll;
    match op
    case Brk(_, _) => claims' := BrkAccounted(v, space, claims, op);
    case Fault(_, _) => claims' := FaultAccounted(v, space, claims, op);
    case Fork(_, _, _) => claims' := ForkAccounted(v, space, claims, op);
    case Exit(pid, debug, tables) =>
      if v.live - {pid} != map[] {
        claims' := ExitEarly(v, space, claims, pid, debug);
        assert Accounted(Leave(v, space, pid, debug, tables), space, claims');
      } else {
        claims' := ExitLast(v, space, claims, op);
      }
    case Others(ops) =>
      OthersKeep(v.mem, space, ops);
      SamePages(v, space, claims, ApplyAll(v.mem, ops));
      claims' := claims;
  }

  lemma SamePages(v: Family, space: Space, claims: Claims, m: Mem)
    requires Accounted(v, space, claims) && forall p :: Leaf(space, p) in m.pages <==> Leaf(space, p) in v.mem.pages
    ensures Accounted(v.(mem := m), space, claims)
  {
  }
}
