/** Whole lives of a fork family, from loading the program to the last exit: which
    pages and frames come back. */
module FamilyRuns {
  import opened Basics
  import opened Frames
  import opened Paging
  import opened Memory
  import opened Ownership
  import opened Heaps
  import opened Stacks
  import opened Loader
  import opened Families

  // ---------------------------------------------------------------------------
  // Frames of one step
  // ---------------------------------------------------------------------------

  /** How many frames a step loses: one for each mapping that fails at a page for
      which a frame had been taken. */
  function StepLosses(v: Family, space: Space, op: FamilyOp): nat
    requires Allowed(v, space, op)
  {
    match op
    case Brk(to, _) =>
      if to.Some? && HEAP_START <= to.value <= HEAP_END && PagesUp(to.value) > PagesUp(v.end)
         && FrameTaken(v.mem, space, PagesUp(v.end), PagesUp(to.value) - PagesUp(v.end)) then 1 else 0
    case Fault(pid, addr) =>
      var s, page := v.live[pid], PageOf(addr);
      if OnStack(s, addr) && page < s.start && FrameTaken(v.mem, space, page, s.start - page) then 1 else 0
    case Fork(pid, _, slots) =>
      var s := v.live[pid];
      if s.start < slots * SLOT_PAGES then 0
      else Losses(v.mem, Tries(v.mem, space, s.start - slots * SLOT_PAGES, s.usage))
    case Exit(_, _, _) => 0
    case Others(ops) => Losses(v.mem, ops)
  }

  /** How many mappings fail in a step. */
  function StepFailures(v: Family, space: Space, op: FamilyOp): nat
    requires Allowed(v, space, op) && Step(v, space, op).Some?
  {
    match op
    case Brk(to, tracing) => if MoveEnd(HeapState(v.mem, v.end), space, to, tracing).1.Failed? then 1 else 0
    case Fault(pid, addr) => if Grow(v.mem, space, v.live[pid], addr).2.MapFailed? then 1 else 0
    case Fork(pid, _, slots) => |Tries(v.mem, space, v.live[pid].start - slots * SLOT_PAGES, v.live[pid].usage)| - 1
    case Exit(_, _, _) => 0
    case Others(ops) => Failures(v.mem, ops)
  }

  lemma {:induction false} FreeCodeOwned(m: Mem, space: Space, code: seq<Range>, o: Owners) returns (o': Owners)
    requires Owned(m, o)
    ensures Owned(FreeCode(m, space, code).0, o') && Fate(o, o', {})
    decreases |code|
  {
    hide Owned, UnmapPages;
    o' := o;
    if code != [] {
      var (m1, ok) := UnmapPages(m, space, code[0].first, RangeLen(code[0]));
      o' := UnmapPagesOwned(m, space, code[0].first, RangeLen(code[0]), o);
      if ok {
        o' := FreeCodeOwned(m1, space, code[1..], o');
      }
    }
  }

  lemma {:induction false} FreeTablesOwned(m: Mem, tables: seq<Table>, o: Owners) returns (o': Owners)
    requires Owned(m, o)
    ensures Owned(FreeTables(m, tables), o') && Fate(o, o', {})
    decreases |tables|
  {
    hide Owned, Apply;
    o' := o;
    if tables != [] {
      o' := FreeTableOwned(m, tables[0], o);
      o' := FreeTablesOwned(Apply(m, FreeTable(tables[0])), tables[1..], o');
    }
  }

  lemma TearDownOwned(h: HeapState, space: Space, s: Stack, last: bool, code: seq<Range>, debug: bool, o: Owners)
      returns (o': Owners)
    requires Owned(h.mem, o)
    ensures Owned(TearDown(h, space, s, last, code, debug).0.mem, o') && Fate(o, o', {})
  {
    hide Owned, UnmapPages, FreeCode;
    o' := o;
    if s.usage != 0 {
      o' := UnmapPagesOwned(h.mem, space, s.start, Len(s), o');
    }
    var (m, ok) := FreeStack(h.mem, space, s);
    if ok && last {
      var (h1, r) := FreeHeap(h.(mem := m), space, debug);
      if h.end > HEAP_START && r.Some? {
        o' := UnmapPagesOwned(m, space, HEAP_PAGE, h.end / PAGE_SIZE - HEAP_PAGE, o');
      }
      if r == Some(true) {
        o' := FreeCodeOwned(h1.mem, space, code, o');
      }
    }
  }

  lemma LeaveOwned(v: Family, space: Space, pid: Pid, debug: bool, tables: seq<Table>, o: Owners) returns (o': Owners)
    requires Owned(v.mem, o) && pid in v.live
    ensures Owned(Leave(v, space, pid, debug, tables).mem, o') && Fate(o, o', {})
  {
    hide Owned, TearDown, FreeTables;
    var code := if pid == v.loader then v.code else [];
    o' := TearDownOwned(HeapState(v.mem, v.end), space, v.live[pid], v.live - {pid} == map[], code, debug, o);
    var (h, r) := TornDown(v, space, pid, debug);
    if r.Freed? {
      o' := FreeTablesOwned(h.mem, tables, o');
    }
  }

  lemma MapNone(m: Mem, space: Space, page: Page)
    ensures MapPages(m, space, page, 0) == (m, Mapped)
  {
  }

  /** No step takes a frame from under a page or forgets one, except that each
      mapping that fails at a page with a frame loses exactly that one. */
  lemma StepOwned(v: Family, space: Space, op: FamilyOp, o: Owners) returns (o': Owners, lost: set<Frame>)
    requires Owned(v.mem, o) && Allowed(v, space, op) && Step(v, space, op).Some?
    ensures Owned(Step(v, space, op).value.mem, o') && Fate(o, o', lost) && |lost| == StepLosses(v, space, op)
  {
    hide Owned, MapPages, UnmapPages, Leave, Retry, ApplyAll, Losses, Tries, FrameTaken, TornDown;
    o', lost := o, {};
    match op
    case Brk(to, tracing) =>
      if to.Some? && HEAP_START <= to.value <= HEAP_END {
        var was, now := PagesUp(v.end), PagesUp(to.value);
        MapNone(v.mem, space, was);
        if now > was {
          o', lost := MapPagesOwned(v.mem, space, was, now - was, o);
        } else if now < was {
          o' := UnmapPagesOwned(v.mem, space, now, was - now, o);
        }
      }
    case Fault(pid, addr) =>
      var s, page := v.live[pid], PageOf(addr);
      if OnStack(s, addr) && page < s.start {
        o', lost := MapPagesOwned(v.mem, space, page, s.start - page, o);
      }
    case Fork(pid, child, slots) =>
      var s := v.live[pid];
      var top := s.start - slots * SLOT_PAGES;
      TriesApply(v.mem, space, top, s.usage);
      o', lost := ApplyAllOwned(v.mem, Tries(v.mem, space, top, s.usage), o);
    case Exit(pid, debug, tables) => o' := LeaveOwned(v, space, pid, debug, tables, o);
    case Others(ops) => o', lost := ApplyAllOwned(v.mem, ops, o);
  }

  // ---------------------------------------------------------------------------
  // Loading
  // ---------------------------------------------------------------------------

  /** A program in a new space: its segments, then its first stack.  `None`: the
      kernel stops. */
  function Load(v: Image, space: Space, pid: Pid, segs: seq<Segment>, file: Elf): Option<Family>
    requires AllLoadable(segs, file)
  {
    var (v1, code) := LoadElf(v, space, segs, file);
    if code.None? then None
    else
      var (m, s) := InitStack(v1.mem, space, pid);
      if s.None? then None else Some(Family(m, HEAP_START, map[pid := s.value], code.value, pid))
  }

  /** A new program: first the top-level table of its space. */
  function Start(v: Image, space: Space, pid: Pid, segs: seq<Segment>, file: Elf): Option<Family>
    requires AllLoadable(segs, file)
  {
    var (m, made) := MakeTables(v.mem, [Top(space)]);
    if made then Load(v.(mem := m), space, pid, segs, file) else None
  }

  lemma FirstStack(m: Mem, space: Space, pid: Pid)
    requires Available(m.pool) >= 4
    ensures InitStack(m, space, pid).1.Some? <==> 1 <= pid <= 0x4000 && Leaf(space, TopPage(pid)) !in m.pages
  {
    if pid >= 1 && (pid - 1) * SLOT_PAGES + 1 <= STACK_MAX_PAGE {
      var bottom := STACK_MAX_PAGE - (pid - 1) * SLOT_PAGES - 1;
      MapPagesSucceeds(m, space, bottom, 1);
      assert InRun(Leaf(space, bottom), space, bottom, 1);
      forall l | InRun(l, space, bottom, 1) ensures l == Leaf(space, bottom) {}
    }
  }

  /** The top page of the slot that a pid names. */
  function TopPage(pid: Pid): Page {
    if 1 <= pid <= 0x4000 then (0x4000 - (pid - 1)) * 0x10_0000 - 1 else 0
  }

  lemma NoPages(m: Mem, m': Mem, space: Space, segs: seq<Segment>)
    requires SpacePages(m, space) == {} && m'.pages == m.pages
    ensures NoneMapped(m', space, segs) && forall p :: Leaf(space, p) !in m'.pages
  {
    forall p ensures p in SpacePages(m, space) <==> Leaf(space, p) in m.pages {}
    forall l | l in m'.pages ensures !InSegments(l, space, segs) {
      assert l.space == space ==> l == Leaf(space, l.page);
    }
  }

  /** With four frames for each page, and for the first stack, and one for the page table
      itself, a program in a new space starts exactly if its segments do not stop the kernel
      and no page belongs to two of them, its pid has a slot, and no segment reaches into
      the top page of that slot. */
  lemma ProgramStarts(v: Image, space: Space, pid: Pid, segs: seq<Segment>, file: Elf)
    requires AllLoadable(segs, file) && SpacePages(v.mem, space) == {}
    requires Available(v.mem.pool) >= 4 * AllPages(segs) + 5
    ensures Start(v, space, pid, segs, file).Some? <==>
              && (forall s <- segs :: !Loader.Stops(s, file)) && Apart(space, segs)
              && 1 <= pid <= 0x4000 && !InSegments(Leaf(space, TopPage(pid)), space, segs)
  {
    hide LoadElf, Loader.Stops, Apart, NoneMapped, InSegments, AllPages, InitStack;
    TablesKeepPages(v.mem, [Top(space)]);
    var m := MakeTables(v.mem, [Top(space)]).0;
    var v1 := v.(mem := m);
    NoPages(v.mem, m, space, segs);
    ProgramLoads(v1, space, segs, file);
    var (v2, code) := LoadElf(v1, space, segs, file);
    if code.Some? {
      LoadElfPages(v1, space, segs, file);
      FirstStack(v2.mem, space, pid);
    }
  }

  /** A segment with bss that ends on a page boundary. */
  predicate BssToBoundary(s: Segment) { s.memSize > s.fileSize && (s.vaddr + s.memSize) % PAGE_SIZE == 0 }

  /** The pages mapped beyond what is recorded. */
  function ExtraPages(segs: seq<Segment>): set<Page> {
    set s | s in segs && BssToBoundary(s) :: (s.vaddr + s.memSize) / PAGE_SIZE
  }

  lemma SegmentIs(s: Segment, file: Elf, space: Space, p: Page)
    requires Fits(s, file)
    ensures InSegment(Leaf(space, p), space, s) <==>
            InRange(Recorded(s), p) || (BssToBoundary(s) && p == (s.vaddr + s.memSize) / PAGE_SIZE)
    ensures BssToBoundary(s) ==> !InRange(Recorded(s), (s.vaddr + s.memSize) / PAGE_SIZE)
  {
    ExtraPage(s);
    var x := s.vaddr + s.memSize;
    assert x % PAGE_SIZE == 0 ==> x / PAGE_SIZE == (x - 1) / PAGE_SIZE + 1;
    assert s.memSize > s.fileSize ==> s.vaddr / PAGE_SIZE <= (x - 1) / PAGE_SIZE;
  }

  lemma SegmentsCover(segs: seq<Segment>, file: Elf, code: seq<Range>, space: Space, p: Page)
    requires |code| == |segs|
    requires forall i :: 0 <= i < |segs| ==> Fits(segs[i], file) && code[i] == Recorded(segs[i])
    ensures InSegments(Leaf(space, p), space, segs) <==> OnCode(code, p) || p in ExtraPages(segs)
  {
    hide SegmentPages;
    if InSegments(Leaf(space, p), space, segs) {
      var s :| s in segs && InSegment(Leaf(space, p), space, s);
      var i :| 0 <= i < |segs| && segs[i] == s;
      SegmentIs(s, file, space, p);
      assert code[i] in code;
    }
    if OnCode(code, p) {
      var i :| 0 <= i < |code| && InRange(code[i], p);
      SegmentIs(segs[i], file, space, p);
      assert segs[i] in segs;
    }
    if p in ExtraPages(segs) {
      var s :| s in segs && BssToBoundary(s) && p == (s.vaddr + s.memSize) / PAGE_SIZE;
      SegmentIs(s, file, space, p);
    }
  }

  lemma ExtraIsNotCode(segs: seq<Segment>, file: Elf, code: seq<Range>, space: Space, p: Page)
    requires Apart(space, segs) && |code| == |segs| && OnCode(code, p)
    requires forall i :: 0 <= i < |segs| ==> Fits(segs[i], file) && code[i] == Recorded(segs[i])
    ensures p !in ExtraPages(segs)
  {
    hide SegmentPages;
    var i :| 0 <= i < |code| && InRange(code[i], p);
    SegmentIs(segs[i], file, space, p);
    forall j | 0 <= j < |segs| && BssToBoundary(segs[j]) ensures p != (segs[j].vaddr + segs[j].memSize) / PAGE_SIZE {
      SegmentIs(segs[j], file, space, p);
    }
  }

  lemma CodeApart(segs: seq<Segment>, file: Elf, code: seq<Range>, space: Space)
    requires Apart(space, segs) && |code| == |segs|
    requires forall i :: 0 <= i < |segs| ==> Fits(segs[i], file) && code[i] == Recorded(segs[i])
    ensures RangesApart(code)
  {
    forall i, j, p | 0 <= i < j < |code| && InRange(code[i], p) ensures !InRange(code[j], p) {
      SegmentIs(segs[i], file, space, p);
      SegmentIs(segs[j], file, space, p);
    }
  }

  function FirstClaims(m: Mem, space: Space, code: seq<Range>, s: Stack, pid: Pid): Claims {
    map p | p in SpacePages(m, space) :: if OnRange(s, p) then OfStack(pid) else if OnCode(code, p) then OfCode else Loose
  }

  lemma FirstAccounted(m: Mem, space: Space, code: seq<Range>, s: Stack, pid: Pid, extra: set<Page>)
    requires StackShape(s) && RangesApart(code)
    requires forall p :: Leaf(space, p) in m.pages <==> OnRange(s, p) || OnCode(code, p) || p in extra
    requires forall p :: OnRange(s, p) ==> !OnCode(code, p) && p !in extra
    requires forall p :: OnCode(code, p) ==> p !in extra
    ensures var claims := FirstClaims(m, space, code, s, pid);
            && Accounted(Family(m, HEAP_START, map[pid := s], code, pid), space, claims)
            && LooseOf(claims) == extra
  {
    EndPages(HEAP_START);
    forall p ensures p in SpacePages(m, space) <==> Leaf(space, p) in m.pages {}
  }

  lemma LoadPages(v: Image, space: Space, pid: Pid, segs: seq<Segment>, file: Elf, o: Owners)
      returns (o': Owners)
    requires Owned(v.mem, o) && AllLoadable(segs, file) && SpacePages(v.mem, space) == {}
    requires Load(v, space, pid, segs, file).Some?
    ensures var w := Load(v, space, pid, segs, file).value;
            && Owned(w.mem, o') && Fate(o, o', {}) && pid in w.live && StackShape(w.live[pid]) && Apart(space, segs)
            && (forall p :: Leaf(space, p) in w.mem.pages <==>
                  OnRange(w.live[pid], p) || InSegments(Leaf(space, p), space, segs))
            && (forall p :: OnRange(w.live[pid], p) ==> !InSegments(Leaf(space, p), space, segs))
  {
    hide Owned, MapPages, LoadElf, InSegments, Apart, FrameTaken;
    var w := Load(v, space, pid, segs, file).value;
    var v1 := LoadElf(v, space, segs, file).0;
    o' := LoadElfBytes(v, space, segs, file, o);
    LoadElfPages(v, space, segs, file);
    InitShape(v1.mem, space, pid);
    var lost;
    var s := w.live[pid];
    FrameTakenIf(v1.mem, space, s.start, 1);
    o', lost := MapPagesOwned(v1.mem, space, s.start, 1, o');
    forall p: Page ensures Leaf(space, p) !in v.mem.pages {
      assert p !in SpacePages(v.mem, space);
    }
    forall p: Page ensures OnRange(s, p) <==> InRun(Leaf(space, p), space, s.start, 1) {}
  }

  lemma LoadAccounted(v: Image, space: Space, pid: Pid, segs: seq<Segment>, file: Elf, o: Owners)
      returns (claims: Claims, o': Owners)
    requires Owned(v.mem, o) && AllLoadable(segs, file) && SpacePages(v.mem, space) == {}
    requires Load(v, space, pid, segs, file).Some?
    ensures var w := Load(v, space, pid, segs, file).value;
            && Accounted(w, space, claims) && LooseOf(claims) == ExtraPages(segs)
            && Owned(w.mem, o') && Fate(o, o', {}) && w.live.Keys == {pid} && w.loader == pid
  {
    hide Owned, LoadElf, InitStack, InSegments, Apart, Accounted, FirstClaims, LooseOf, ExtraPages, RangesApart;
    var w := Load(v, space, pid, segs, file).value;
    var s := w.live[pid];
    o' := LoadPages(v, space, pid, segs, file, o);
    LoadElfRanges(v, space, segs, file);
    CodeApart(segs, file, w.code, space);
    forall p ensures InSegments(Leaf(space, p), space, segs) <==> OnCode(w.code, p) || p in ExtraPages(segs) {
      SegmentsCover(segs, file, w.code, space, p);
    }
    forall p | OnCode(w.code, p) ensures p !in ExtraPages(segs) {
      ExtraIsNotCode(segs, file, w.code, space, p);
    }
    FirstAccounted(w.mem, space, w.code, s, pid, ExtraPages(segs));
    claims := FirstClaims(w.mem, space, w.code, s, pid);
  }

  /** A loaded program is accounted for; loose are exactly the pages that some bss
      reaches beyond what is recorded. */
  lemma StartAccounted(v: Image, space: Space, pid: Pid, segs: seq<Segment>, file: Elf, o: Owners)
      returns (claims: Claims, o': Owners)
    requires Owned(v.mem, o) && AllLoadable(segs, file) && SpacePages(v.mem, space) == {}
    requires Start(v, space, pid, segs, file).Some?
    ensures var w := Start(v, space, pid, segs, file).value;
            && Accounted(w, space, claims) && LooseOf(claims) == ExtraPages(segs)
            && Owned(w.mem, o') && Fate(o, o', {}) && w.live.Keys == {pid} && w.loader == pid
  {
    hide Owned, Load, Accounted, LooseOf, ExtraPages, MakeTables;
    var m := MakeTables(v.mem, [Top(space)]).0;
    TablesKeepPages(v.mem, [Top(space)]);
    var o1 := MakeTablesOwned(v.mem, [Top(space)], o);
    claims, o' := LoadAccounted(v.(mem := m), space, pid, segs, file, o1);
  }

  // ---------------------------------------------------------------------------
  // Runs
  // ---------------------------------------------------------------------------

  /** `None` once a step is not allowed or stops the kernel. */
  function Run(v: Family, space: Space, ops: seq<FamilyOp>): Option<Family> {
    if ops == [] then Some(v)
    else
      var w, op := Run(v, space, ops[..|ops| - 1]), ops[|ops| - 1];
      if w.None? || !Allowed(w.value, space, op) then None else Step(w.value, space, op)
  }

  /** All pages that the steps of a run left without a holder. */
  function Leaked(v: Family, space: Space, ops: seq<FamilyOp>): set<Page>
    requires Run(v, space, ops).Some?
  {
    if ops == [] then {}
    else
      var prefix := ops[..|ops| - 1];
      Leaked(v, space, prefix) + Gap(Run(v, space, prefix).value, space, ops[|ops| - 1])
  }

  function RunLosses(v: Family, space: Space, ops: seq<FamilyOp>): nat
    requires Run(v, space, ops).Some?
  {
    if ops == [] then 0
    else
      var prefix := ops[..|ops| - 1];
      RunLosses(v, space, prefix) + StepLosses(Run(v, space, prefix).value, space, ops[|ops| - 1])
  }

  lemma RunStep(v: Family, space: Space, ops: seq<FamilyOp>) returns (w: Family, op: FamilyOp)
    requires ops != [] && Run(v, space, ops).Some?
    ensures op == ops[|ops| - 1] && Run(v, space, ops[..|ops| - 1]) == Some(w) && Allowed(w, space, op)
    ensures Step(w, space, op) == Run(v, space, ops)
    ensures Leaked(v, space, ops) == Leaked(v, space, ops[..|ops| - 1]) + Gap(w, space, op)
    ensures RunLosses(v, space, ops) == RunLosses(v, space, ops[..|ops| - 1]) + StepLosses(w, space, op)
  {
    w, op := Run(v, space, ops[..|ops| - 1]).value, ops[|ops| - 1];
  }

  /** In every reachable state all pages are accounted for, and the loose ones are
      exactly those that the run has leaked. */
  lemma {:induction false} RunAccounted(v: Family, space: Space, ops: seq<FamilyOp>, claims: Claims)
      returns (claims': Claims)
    requires Accounted(v, space, claims) && Run(v, space, ops).Some?
    ensures Accounted(Run(v, space, ops).value, space, claims')
    ensures LooseOf(claims') == LooseOf(claims) + Leaked(v, space, ops)
    decreases |ops|
  {
    hide Accounted, LooseOf, Step, Gap;
    claims' := claims;
    if ops != [] {
      var w, op := RunStep(v, space, ops);
      var c := RunAccounted(v, space, ops[..|ops| - 1], claims);
      claims' := StepAccounted(w, space, c, op);
    }
  }

  /** In every reachable state every frame has one owner; exactly one frame has been
      lost for each mapping that failed at a page with a frame. */
  lemma {:induction false} RunOwned(v: Family, space: Space, ops: seq<FamilyOp>, o: Owners)
      returns (o': Owners, lost: set<Frame>)
    requires Owned(v.mem, o) && Run(v, space, ops).Some?
    ensures Owned(Run(v, space, ops).value.mem, o') && Fate(o, o', lost) && |lost| == RunLosses(v, space, ops)
    decreases |ops|
  {
    o', lost := o, {};
    if ops != [] {
      hide Owned, Fate, Step, StepLosses;
      var w, op := RunStep(v, space, ops);
      var o1, lost1 := RunOwned(v, space, ops[..|ops| - 1], o);
      var lost2;
      o', lost2 := StepOwned(w, space, op, o1);
      lost := lost1 + lost2;
      FatesJoin(o, o1, o', lost1, lost2);
    }
  }

  /** Once everybody has left, the heap has been reset and only tables that serve a
      page are left. */
  ghost predicate Ended(v: Family, space: Space) {
    v.live == map[] ==> v.end == HEAP_START && TablesServe(v.mem, space)
  }

  lemma StepEnds(v: Family, space: Space, claims: Claims, op: FamilyOp)
    requires Accounted(v, space, claims) && Ended(v, space) && Allowed(v, space, op) && Step(v, space, op).Some?
    ensures Ended(Step(v, space, op).value, space)
  {
    hide Accounted, TablesServe, TornDown, MoveEnd, Grow, ForkStack, ApplyAll, Leave;
    match op
    case Brk(_, _) =>
    case Fault(_, _) =>
    case Fork(_, _, _) =>
    case Exit(pid, debug, tables) =>
      var w := Leave(v, space, pid, debug, tables);
      assert w.live == v.live - {pid} by {
        LeaveLive(v, space, pid, debug, tables);
      }
      if v.live - {pid} == map[] {
        var c := ExitLast(v, space, claims, op);
      }
    case Others(ops) =>
      if v.live == map[] {
        OthersKeepTables(v.mem, space, ops);
      }
  }

  lemma LeaveLive(v: Family, space: Space, pid: Pid, debug: bool, tables: seq<Table>)
    requires pid in v.live
    ensures Leave(v, space, pid, debug, tables).live == v.live - {pid}
  {
  }

  /** What other spaces do leaves the tables of this one alone, and the pages too. */
  lemma {:induction false} OthersKeepTables(m: Mem, space: Space, ops: seq<MemOp>)
    requires TablesServe(m, space) && forall x <- ops :: SpaceOf(x) != space
    ensures TablesServe(ApplyAll(m, ops), space)
    decreases |ops|
  {
    if ops != [] {
      var n := |ops| - 1;
      OthersKeepTables(m, space, ops[..n]);
      OtherKeepsTables(ApplyAll(m, ops[..n]), space, ops[n]);
    }
  }

  lemma {:induction false} MakeTablesIn(m: Mem, path: seq<Table>, space: Space)
    requires forall t <- path :: t.space != space
    ensures forall t: Table :: t.space == space ==> (t in MakeTables(m, path).0.tables <==> t in m.tables)
    decreases |path|
  {
    if path != [] && !(path[0] !in m.tables && Take(m.pool).1.None?) {
      if path[0] in m.tables {
        MakeTablesIn(m, path[1..], space);
      } else {
        var (pool, f) := Take(m.pool);
        MakeTablesIn(m.(pool := pool, tables := m.tables[path[0] := f.value]), path[1..], space);
      }
    }
  }

  lemma {:induction false} MapPagesTables(m: Mem, x: Space, page: Page, count: nat, space: Space)
    requires x != space
    ensures forall t: Table :: t.space == space ==> (t in MapPages(m, x, page, count).0.tables <==> t in m.tables)
    decreases count
  {
    if count > 0 {
      var l := Leaf(x, page);
      var (pool, f) := Take(m.pool);
      MakeTablesIn(m.(pool := pool), Path(l), space);
      var (m1, r) := MapPage(m, l);
      assert forall t: Table :: t.space == space ==> (t in m1.tables <==> t in m.tables);
      if r.Mapped? {
        MapPagesTables(m1, x, page + 1, count - 1, space);
      }
    }
  }

  lemma OtherKeepsTables(m: Mem, space: Space, op: MemOp)
    requires TablesServe(m, space) && SpaceOf(op) != space
    ensures TablesServe(Apply(m, op), space)
  {
    var m' := Apply(m, op);
    OtherKeeps(m, space, op);
    match op {
      case MapRun(x, page, count) => MapPagesTables(m, x, page, count, space);
      case UnmapRun(x, page, count) => UnmapPagesIs(m, x, page, count);
      case NewSpace(x) => MakeTablesIn(m, [Top(x)], space);
      case FreeTable(t) =>
    }
    forall t | t in m'.tables && t.space == space ensures t != Top(space) && Serves(m', t) {
      var l :| l in m.pages && t in Path(l);
      assert l.space == space && l == Leaf(space, l.page);
    }
  }

  lemma {:induction false} RunEnds(v: Family, space: Space, ops: seq<FamilyOp>, claims: Claims)
    requires Accounted(v, space, claims) && v.live != map[] && Run(v, space, ops).Some?
    ensures Ended(Run(v, space, ops).value, space)
    decreases |ops|
  {
    if ops != [] {
      hide Accounted, Step, TablesServe;
      var w, op := RunStep(v, space, ops);
      RunEnds(v, space, ops[..|ops| - 1], claims);
      var c := RunAccounted(v, space, ops[..|ops| - 1], claims);
      StepEnds(w, space, c, op);
    }
  }

  /** A whole life of a family, from loading to the last exit.  The pages that stay
      mapped are exactly those of a bss that ends on a page boundary and those that
      the run leaked, the tables that stay serve such a page, every frame of the
      machine still has one owner, and exactly so many are lost as mappings failed at
      a page with a frame. */
  lemma LifeOfFamily(v: Image, space: Space, pid: Pid, segs: seq<Segment>, file: Elf, ops: seq<FamilyOp>, o: Owners)
      returns (o': Owners, lost: set<Frame>)
    requires Owned(v.mem, o) && AllLoadable(segs, file) && SpacePages(v.mem, space) == {}
    requires Start(v, space, pid, segs, file).Some?
    requires Run(Start(v, space, pid, segs, file).value, space, ops).Some?
    requires Run(Start(v, space, pid, segs, file).value, space, ops).value.live == map[]
    ensures var w := Start(v, space, pid, segs, file).value;
            var m := Run(w, space, ops).value.mem;
            && SpacePages(m, space) == ExtraPages(segs) + Leaked(w, space, ops) && TablesServe(m, space)
            && Owned(m, o') && Fate(o, o', lost) && |lost| == RunLosses(w, space, ops)
  {
    hide Owned, Accounted, LooseOf, Start, Run, ExtraPages, Leaked, RunLosses, TablesServe;
    var w := Start(v, space, pid, segs, file).value;
    var claims, o1 := StartAccounted(v, space, pid, segs, file, o);
    var claims' := RunAccounted(w, space, ops, claims);
    o', lost := RunOwned(w, space, ops, o1);
    RunEnds(w, space, ops, claims);
    NobodyLeft(Run(w, space, ops).value, space, claims');
  }

  lemma NobodyLeft(v: Family, space: Space, claims: Claims)
    requires Accounted(v, space, claims) && v.live == map[] && v.end == HEAP_START
    ensures SpacePages(v.mem, space) == LooseOf(claims)
  {
    EndPages(HEAP_START);
    forall p ensures p in SpacePages(v.mem, space) <==> Leaf(space, p) in v.mem.pages {}
    forall p ensures p in LooseOf(claims) <==> p in claims {
      assert !OnHeap(v.end, p);
    }
  }

  // ---------------------------------------------------------------------------
  // Clean lives
  // ---------------------------------------------------------------------------

  /** No mapping fails, the loader does not leave before the others, and the heap's
      end is on a page boundary when the last one leaves. */
  predicate Clean(v: Family, space: Space, op: FamilyOp)
    requires Allowed(v, space, op) && Step(v, space, op).Some?
  {
    && StepFailures(v, space, op) == 0
    && (op.Exit? && v.live - {op.pid} != map[] ==> op.pid != v.loader || v.code == [])
    && (op.Exit? && v.live - {op.pid} == map[] ==> v.end % PAGE_SIZE == 0)
  }

  ghost predicate CleanRun(v: Family, space: Space, ops: seq<FamilyOp>)
    requires Run(v, space, ops).Some?
  {
    ops == [] ||
    var prefix := ops[..|ops| - 1];
    CleanRun(v, space, prefix) && Clean(Run(v, space, prefix).value, space, ops[|ops| - 1])
  }

  lemma FirstTryIsEnough(v: Family, space: Space, op: FamilyOp)
    requires op.Fork? && Allowed(v, space, op) && Step(v, space, op).Some? && StepFailures(v, space, op) == 0
    ensures Gap(v, space, op) == {}
  {
    hide MapPages;
  }

  lemma CleanLeavesNothing(v: Family, space: Space, op: FamilyOp)
    requires Allowed(v, space, op) && Step(v, space, op).Some? && Clean(v, space, op)
    ensures Gap(v, space, op) == {} && StepLosses(v, space, op) == 0
  {
    hide MapPages, Losses, Failures, FrameTaken, TornDown, Leave, OnStack;
    match op
    case Brk(to, _) =>
      if to.Some? && HEAP_START <= to.value <= HEAP_END && PagesUp(to.value) > PagesUp(v.end) {
        FrameTakenIf(v.mem, space, PagesUp(v.end), PagesUp(to.value) - PagesUp(v.end));
      }
    case Fault(pid, addr) =>
      var s, page := v.live[pid], PageOf(addr);
      if OnStack(s, addr) && page < s.start {
        FrameTakenIf(v.mem, space, page, s.start - page);
      }
    case Fork(pid, _, slots) =>
      var s := v.live[pid];
      FirstTryIsEnough(v, space, op);
      TriesFail(v.mem, space, s.start - slots * SLOT_PAGES, s.usage);
      LossesAreFailures(v.mem, Tries(v.mem, space, s.start - slots * SLOT_PAGES, s.usage));
    case Exit(_, _, _) =>
    case Others(ops) => LossesAreFailures(v.mem, ops);
  }

  lemma {:induction false} CleanRunLeavesNothing(v: Family, space: Space, ops: seq<FamilyOp>)
    requires Run(v, space, ops).Some? && CleanRun(v, space, ops)
    ensures Leaked(v, space, ops) == {} && RunLosses(v, space, ops) == 0
    decreases |ops|
  {
    hide Gap, Step, StepLosses, StepFailures;
    if ops != [] {
      var w, op := RunStep(v, space, ops);
      CleanRunLeavesNothing(v, space, ops[..|ops| - 1]);
      CleanLeavesNothing(w, space, op);
    }
  }

  /** If the loader is the last to leave, the heap then ends on a page boundary, no
      bss ends on one and no mapping failed, then no page and no table of the family
      is left and no frame is lost: all frames behind its pages and tables are back. */
  lemma AllFramesReturn(v: Image, space: Space, pid: Pid, segs: seq<Segment>, file: Elf, ops: seq<FamilyOp>, o: Owners)
      returns (o': Owners)
    requires Owned(v.mem, o) && AllLoadable(segs, file) && SpacePages(v.mem, space) == {}
    requires Start(v, space, pid, segs, file).Some?
    requires Run(Start(v, space, pid, segs, file).value, space, ops).Some?
    requires Run(Start(v, space, pid, segs, file).value, space, ops).value.live == map[]
    requires CleanRun(Start(v, space, pid, segs, file).value, space, ops)
    requires forall s :: s in segs ==> !BssToBoundary(s)
    ensures var m := Run(Start(v, space, pid, segs, file).value, space, ops).value.mem;
            && SpacePages(m, space) == {} && Owned(m, o') && Fate(o, o', {})
            && (forall f :: f in o' && o'[f].AtLeaf? ==> o'[f].l.space != space)
            && (forall f :: f in o' && o'[f].AtTable? ==> o'[f].t.space != space)
  {
    hide Owned, Start, Run, CleanRun, Leaked, RunLosses, TablesServe;
    var w := Start(v, space, pid, segs, file).value;
    CleanRunLeavesNothing(w, space, ops);
    var lost;
    o', lost := LifeOfFamily(v, space, pid, segs, file, ops, o);
    NothingOwned(Run(w, space, ops).value.mem, space, o');
  }

  lemma NothingOwned(m: Mem, space: Space, o: Owners)
    requires Owned(m, o) && SpacePages(m, space) == {} && TablesServe(m, space)
    ensures forall f :: f in o && o[f].AtLeaf? ==> o[f].l.space != space
    ensures forall f :: f in o && o[f].AtTable? ==> o[f].t.space != space
  {
    forall l | l in m.pages ensures l.space != space {
      assert l.page !in SpacePages(m, space);
    }
    forall t: Table | t.space == space ensures !Serves(m, t) {
      forall l | l in m.pages ensures t !in Path(l) {}
    }
  }
}
