/** Inputs on which the memory management does not do what it is meant to. */
module MemoryWitnesses {
  import opened Basics
  import opened Frames
  import opened Paging
  import opened Memory
  import opened Ownership
  import opened Heaps
  import opened Stacks
  import opened Loader
  import opened Families
  import opened FamilyRuns

  /** Nothing mapped, and `n` frames to take. */
  function Empty(n: nat): (m: Mem)
    ensures Available(m.pool) == n
  {
    Mem(Pool(seq(n, i => i), [], 0), map[], map[])
  }

  lemma EmptyOwned(n: nat) returns (o: Owners)
    ensures Owned(Empty(n), o)
  {
    o := map f | f in Empty(n).pool.unused :: Unused;
    assert Empty(n).pool.unused == seq(n, i => i);
    forall f: nat ensures f in Empty(n).pool.unused <==> f in o && o[f] == Unused {
      if f < n {
        assert Empty(n).pool.unused[f] == f;
      }
    }
  }

  /** One byte of heap: its page is still mapped after clean-up, or a debug build
      stops. */
  lemma OneByteOfHeap()
    ensures var h := MoveEnd(HeapState(Empty(4), HEAP_START), 0, Some(HEAP_START + 1), false).0;
            && h.end == HEAP_START + 1
            && FreeHeap(h, 0, false).1 == Some(true) && Leaf(0, HEAP_PAGE) in FreeHeap(h, 0, false).0.mem.pages
            && FreeHeap(h, 0, true).1 == None
  {
    var h0 := HeapState(Empty(4), HEAP_START);
    EndPages(HEAP_START);
    assert HeapOk(h0, 0);
    BrkSucceeds(h0, 0, HEAP_START + 1, false);
    var extra := BrkKeeps(h0, 0, Some(HEAP_START + 1), false);
    var h := MoveEnd(h0, 0, Some(HEAP_START + 1), false).0;
    CleanUpLeaves(h, 0, false);
    CleanUpLeaves(h, 0, true);
    assert InHeap(Leaf(0, HEAP_PAGE), 0);
  }

  /** Four frames: a page and its three tables, and none is left. */
  lemma FourFrames(l: Leaf)
    ensures MapPage(Empty(4), l).1.Mapped? && MapPage(Empty(4), l).0.pages.Keys == {l}
    ensures Available(MapPage(Empty(4), l).0.pool) == 0
  {
    var m, path := Empty(4), Path(l);
    MapPageIs(m, l);
    var m0 := m.(pool := Take(m.pool).0);
    var m1 := m0.(pool := Take(m0.pool).0, tables := m0.tables[path[0] := 1]);
    var m2 := m1.(pool := Take(m1.pool).0, tables := m1.tables[path[1] := 2]);
    var m3 := m2.(pool := Take(m2.pool).0, tables := m2.tables[path[2] := 3]);
    assert MakeTables(m0, path) == MakeTables(m1, path[1..]);
    assert path[1..][0] == path[1] && MakeTables(m1, path[1..]) == MakeTables(m2, path[1..][1..]);
    assert path[1..][1..] == [path[2]] && [path[2]][1..] == [];
    assert MakeTables(m2, [path[2]]) == MakeTables(m3, []);
  }

  /** A `brk` by two pages when there are frames for one: it fails, and however many
      frames there are later, one byte more is refused too. */
  lemma FailedBrkBlocks(pool: Pool)
    ensures var (h, r) := MoveEnd(HeapState(Empty(4), HEAP_START), 0, Some(HEAP_START + 2 * PAGE_SIZE), false);
            && r == Failed
            && MoveEnd(h.(mem := h.mem.(pool := pool)), 0, Some(HEAP_START + 1), false).1 == Failed
  {
    hide MapPage;
    var m, page := Empty(4), HEAP_PAGE;
    EndPages(HEAP_START);
    FourFrames(Leaf(0, page));
    var m1 := MapPage(m, Leaf(0, page)).0;
    var m2 := MapPages(m1, 0, page + 1, 1).0;
    NoFrameLeft(m1, Leaf(0, page + 1));
    assert MapPages(m, 0, page, 2) == MapPages(m1, 0, page + 1, 1);
    assert PagesUp(HEAP_START + 2 * PAGE_SIZE) == page + 2 && PagesUp(HEAP_START + 1) == page + 1;
    MapPageIs(m2.(pool := pool), Leaf(0, page));
  }

  lemma NoFrameLeft(m: Mem, l: Leaf)
    requires Available(m.pool) == 0
    ensures MapPage(m, l).1 == NoFrame && MapPage(m, l).0.pages == m.pages
  {
  }

  /** Two pages, the second of which is there already: the first stays mapped and
      the frame taken for the second is lost. */
  lemma RunIntoMappedPage()
    ensures var m := MapPages(Empty(12), 0, 1, 1).0;
            && MapPages(m, 0, 0, 2).1 == AlreadyMapped && Leaf(0, 0) in MapPages(m, 0, 0, 2).0.pages
            && Losses(Empty(12), [MapRun(0, 1, 1), MapRun(0, 0, 2)]) == 1
  {
    hide MapPage;
    var m0 := Empty(12);
    var m := MapPages(m0, 0, 1, 1).0;
    MapPagesSucceeds(m0, 0, 1, 1);
    var j := MapPagesIs(m0, 0, 1, 1);
    assert InRun(Leaf(0, 1), 0, 1, 1) && InRun(Leaf(0, 1), 0, 0, 2);
    MapPagesSucceeds(m, 0, 0, 2);
    ReachesFirstMapped(m, 0, 0, 2);
    var k := MapPagesIs(m, 0, 0, 2);
    assert !InRun(Leaf(0, 0), 0, 1, 1);
    assert k == 1 && InRun(Leaf(0, 0), 0, 0, 1);
    FrameTakenIf(m0, 0, 1, 1);
    FrameTakenIf(m, 0, 0, 2);
    var ops := [MapRun(0, 1, 1), MapRun(0, 0, 2)];
    assert ops[..1] == [MapRun(0, 1, 1)] && ops[..1][..0] == [];
    assert ApplyAll(m0, ops[..1]) == m;
    assert Losses(m0, ops[..1]) == 0;
  }

  /** A file with nothing but zeros behind it in memory. */
  function Text(bytes: seq<Byte>, checks: bool): Elf { Elf(bytes, _ => 0, checks) }

  /** A segment of two pages in memory and 100 bytes in the file. */
  function TwoPages(): Segment { Segment(0, PAGE_SIZE, 100, 2 * PAGE_SIZE) }

  /** Its bss ends on a page boundary: three pages are mapped, two are recorded. */
  lemma BssToTheBoundary(checks: bool)
    ensures var (v, r) := LoadSegment(Image(Empty(12), (_, _) => 0), 0, TwoPages(), Text(Zeros(100), checks));
            r == Some(Range(1, 2)) && Leaf(0, 3) in v.mem.pages
  {
    hide LoadRun, MapPages;
    var s, v, file := TwoPages(), Image(Empty(12), (_, _) => 0), Text(Zeros(100), checks);
    assert FilePages(s) == 1 && BssFirst(s) == 2 && BssCount(s) == 2 && SegmentPages(s) == 3;
    LoadRunMem(v, 0, 1, CopiedBytes(s, file), 1);
    MapPagesSucceeds(v.mem, 0, 1, 1);
    var j := MapPagesIs(v.mem, 0, 1, 1);
    var v1 := LoadRun(v, 0, 1, CopiedBytes(s, file), 1).0;
    LoadRunMem(v1, 0, 2, [], 2);
    MapPagesSucceeds(v1.mem, 0, 2, 2);
    LoadSegmentMaps(v, 0, s, file);
    assert InRun(Leaf(0, 3), 0, 1, 3);
  }

  /** A segment of one byte that starts one byte past a page boundary, in the file and
      in memory: the byte before it is loaded in its stead. */
  lemma OffTheBoundary(file: Elf)
    requires file.bytes == [0, 7]
    ensures Loadable(Segment(1, PAGE_SIZE + 1, 1, 1), file)
    ensures var (v, r) := LoadSegment(Image(Empty(4), (_, _) => 0), 0, Segment(1, PAGE_SIZE + 1, 1, 1), file);
            r.Some? && !Right(v, 0, Segment(1, PAGE_SIZE + 1, 1, 1), file)
  {
    hide LoadRun, MapPages, Holds;
    var s, v := Segment(1, PAGE_SIZE + 1, 1, 1), Image(Empty(4), (_, _) => 0);
    assert FilePages(s) == 1 && BssCount(s) == 0;
    LoadRunMem(v, 0, 1, CopiedBytes(s, file), 1);
    MapPagesSucceeds(v.mem, 0, 1, 1);
    var v1 := LoadRun(v, 0, 1, CopiedBytes(s, file), 1).0;
    LoadRunMem(v1, 0, BssFirst(s), [], 0);
    MapPagesSucceeds(v1.mem, 0, BssFirst(s), 0);
    var o := EmptyOwned(4);
    var o' := LoadSegmentIs(v, 0, s, file, o);
    assert Wanted(s, file, 0) == 7;
    LoadedIsRight(LoadSegment(v, 0, s, file).0, 0, s, file);
  }

  /** A file part that reaches one page further than its size, because it starts off a
      page boundary: with overflow checks the kernel stops, without them the bytes at the
      end of the first page are missing. */
  function OverThePage(): Segment { Segment(0x100, 0x1100, 0xF80, 0xF80) }

  lemma CountWraps(v: Image, file: Elf, o: Owners)
    requires |file.bytes| >= 0x1080 && file.bytes[0xF80] != 0 && Owned(v.mem, o)
    ensures Loadable(OverThePage(), file) && Wraps(OverThePage())
    ensures file.checks ==> LoadSegment(v, 0, OverThePage(), file).1 == None
    ensures LoadSegment(v, 0, OverThePage(), file).1.Some? ==>
              !Right(LoadSegment(v, 0, OverThePage(), file).0, 0, OverThePage(), file)
  {
    hide LoadRun, Holds, Owned;
    var s := OverThePage();
    assert FilePages(s) == 2 && LastPage(s) == PAGE_SIZE;
    if LoadSegment(v, 0, s, file).1.Some? {
      var o' := LoadSegmentIs(v, 0, s, file, o);
      LoadedIsRight(LoadSegment(v, 0, s, file).0, 0, s, file);
      assert Wanted(s, file, 0xE80) == file.bytes[0xF80];
    }
  }

  /** And it does load. */
  lemma CountWrapsAndLoads(file: Elf)
    requires |file.bytes| >= 0x1080 && file.bytes[0xF80] != 0 && !file.checks
    ensures Loadable(OverThePage(), file)
    ensures var (v, r) := LoadSegment(Image(Empty(8), (_, _) => 0), 0, OverThePage(), file);
            r.Some? && !Right(v, 0, OverThePage(), file)
  {
    hide LoadRun, MapPages, CopiedBytes, Right;
    var s, v := OverThePage(), Image(Empty(8), (_, _) => 0);
    var o := EmptyOwned(8);
    CountWraps(v, file, o);
    assert FilePages(s) == 2 && BssCount(s) == 0 && s.vaddr / PAGE_SIZE == 1;
    LoadRunMem(v, 0, 1, CopiedBytes(s, file), 2);
    MapPagesSucceeds(v.mem, 0, 1, 2);
    var v1 := LoadRun(v, 0, 1, CopiedBytes(s, file), 2).0;
    LoadRunMem(v1, 0, BssFirst(s), [], 0);
    MapPagesSucceeds(v1.mem, 0, BssFirst(s), 0);
  }

  /** A program of one page. */
  function OnePage(): Segment { Segment(0, PAGE_SIZE, 1, 1) }

  function OneByte(): Elf { Text(Zeros(1), false) }

  function Program(): Image { Image(Empty(40), (_, _) => 0) }

  lemma ProgramLoads(v: Image)
    requires Available(v.mem.pool) >= 20 && v.mem.pages == map[]
    ensures Loadable(OnePage(), OneByte())
    ensures var (v', rs) := LoadElf(v, 0, [OnePage()], OneByte());
            rs == Some([Range(1, 1)]) && v'.mem.pages.Keys == {Leaf(0, 1)} && Available(v'.mem.pool) >= 16
  {
    hide LoadRun, MapPages;
    var s, file := OnePage(), OneByte();
    assert FilePages(s) == 1 && BssCount(s) == 0;
    LoadRunMem(v, 0, 1, CopiedBytes(s, file), 1);
    MapPagesSucceeds(v.mem, 0, 1, 1);
    var j := MapPagesIs(v.mem, 0, 1, 1);
    var v1 := LoadRun(v, 0, 1, CopiedBytes(s, file), 1).0;
    LoadRunMem(v1, 0, BssFirst(s), [], 0);
    var j0 := MapPagesIs(v1.mem, 0, BssFirst(s), 0);
    MapPagesSucceeds(v1.mem, 0, BssFirst(s), 0);
    forall l ensures InRun(l, 0, 1, 1) <==> l == Leaf(0, 1) {}
    forall l ensures !InRun(l, 0, BssFirst(s), 0) {}
    assert [s][1..] == [] && Recorded(s) == Range(1, 1);
    assert [Range(1, 1)] + [] == [Range(1, 1)];
  }

  lemma StackStarts(m: Mem)
    requires Available(m.pool) >= 16 && m.pages.Keys == {Leaf(0, 1)}
    ensures var (m', s) := InitStack(m, 0, 2);
            && s.Some? && s.value.start >= SLOT_PAGES && s.value.usage == 1
            && RunFree(m', 0, s.value.start - SLOT_PAGES, 1) && Available(m'.pool) >= 12 && Leaf(0, 0) !in m'.pages
  {
    hide MapPages;
    var bottom := STACK_MAX_PAGE - SLOT_PAGES - 1;
    assert bottom > SLOT_PAGES + 1;
    MapPagesSucceeds(m, 0, bottom, 1);
    var j := MapPagesIs(m, 0, bottom, 1);
  }

  /** The program has started: its code at page 1, its stack in the slot of pid 2. */
  lemma ProgramStarts()
    ensures AllLoadable([OnePage()], OneByte()) && SpacePages(Program().mem, 0) == {}
    ensures var w := Start(Program(), 0, 2, [OnePage()], OneByte());
            && w.Some? && w.value.code == [Range(1, 1)] && w.value.loader == 2 && w.value.end == HEAP_START
            && Available(w.value.mem.pool) >= 12 && w.value.live.Keys == {2} && Leaf(0, 0) !in w.value.mem.pages
            && var s := w.value.live[2];
               && s.start >= SLOT_PAGES && s.usage == 1
               && RunFree(w.value.mem, 0, s.start - SLOT_PAGES, 1)
  {
    hide InitStack, LoadElf, MakeTables, RunFree;
    var v := Program();
    TablesKeepPages(v.mem, [Top(0)]);
    var v1 := v.(mem := MakeTables(v.mem, [Top(0)]).0);
    ProgramLoads(v1);
    StackStarts(LoadElf(v1, 0, [OnePage()], OneByte()).0.mem);
  }

  /** The program touches address 0: the fault is reported as handled, nothing has
      changed, and the instruction faults again. */
  lemma FaultForEver()
    ensures AllLoadable([OnePage()], OneByte()) && Start(Program(), 0, 2, [OnePage()], OneByte()).Some?
    ensures var w := Start(Program(), 0, 2, [OnePage()], OneByte()).value;
            Allowed(w, 0, Fault(2, 0)) && Step(w, 0, Fault(2, 0)) == Some(w)
  {
    hide Start, Owned;
    ProgramStarts();
    var w := Start(Program(), 0, 2, [OnePage()], OneByte()).value;
    var o := EmptyOwned(40);
    var c, o' := StartAccounted(Program(), 0, 2, [OnePage()], OneByte(), o);
    OnStackIs(w.live[2], 0);
    FaultResolved(w, 0, c, Fault(2, 0));
  }

  lemma ForkSucceeds(v: Family, pid: Pid, child: Pid)
    requires pid in v.live && Available(v.mem.pool) >= 4 && Allowed(v, 0, Fork(pid, child, 1))
    requires v.live[pid].start >= SLOT_PAGES && v.live[pid].usage == 1
    requires RunFree(v.mem, 0, v.live[pid].start - SLOT_PAGES, 1)
    ensures Step(v, 0, Fork(pid, child, 1)).Some?
  {
    MapPagesSucceeds(v.mem, 0, v.live[pid].start - SLOT_PAGES, 1);
  }

  /** The elements of a set in some order. */
  lemma {:induction false} Listed(s: set<Table>) returns (q: seq<Table>)
    ensures forall t :: t in q <==> t in s
  {
    q := [];
    if s != {} {
      var t :| t in s;
      q := Listed(s - {t});
      q := [t] + q;
    }
  }

  lemma RunOn(w: Family, ops: seq<FamilyOp>, op: FamilyOp, last: Family)
    requires Run(w, 0, ops) == Some(last) && Allowed(last, 0, op)
    ensures Run(w, 0, ops + [op]) == Step(last, 0, op)
  {
    assert (ops + [op])[..|ops|] == ops;
  }

  /** The loader, pid 2, leaves its child, pid 3, behind. */
  lemma FirstExit(v: Family, c: Claims) returns (op: FamilyOp, c': Claims)
    requires Accounted(v, 0, c) && v.live.Keys == {2, 3} && v.loader == 2 && v.code == [Range(1, 1)]
    ensures op.Exit? && op.pid == 2 && Allowed(v, 0, op) && Step(v, 0, op).Some?
    ensures Step(v, 0, op).value.live.Keys == {3} && Accounted(Step(v, 0, op).value, 0, c') && 1 in LooseOf(c')
  {
    hide Accounted, LooseOf, TornDown, SpareTables;
    var tables := Listed(SpareTables(TornDown(v, 0, 2, false).0.mem, 0));
    op := Exit(2, false, tables);
    assert 3 in v.live - {2};
    c' := ExitEarly(v, 0, c, 2, false);
    assert InRange(Range(1, 1), 1) && OnCode(v.code, 1);
  }

  lemma SecondExit(v: Family, c: Claims) returns (op: FamilyOp)
    requires Accounted(v, 0, c) && v.live.Keys == {3} && 1 in LooseOf(c)
    ensures op.Exit? && op.pid == 3 && Allowed(v, 0, op) && Step(v, 0, op).Some?
    ensures Step(v, 0, op).value.live == map[] && Leaf(0, 1) in Step(v, 0, op).value.mem.pages
  {
    hide Accounted, LooseOf, TornDown, SpareTables;
    var tables := Listed(SpareTables(TornDown(v, 0, 3, false).0.mem, 0));
    op := Exit(3, false, tables);
    assert v.live - {3} == map[];
    var c' := ExitLast(v, 0, c, op);
    assert 1 in SpacePages(Step(v, 0, op).value.mem, 0);
  }

  /** The program forks and exits before its child, then the child exits: nobody is
      left, and the page of code is still mapped. */
  lemma LoaderExitsFirst() returns (ops: seq<FamilyOp>, w: Family)
    ensures AllLoadable([OnePage()], OneByte()) && Start(Program(), 0, 2, [OnePage()], OneByte()) == Some(w)
    ensures |ops| == 3 && ops[0] == Fork(2, 3, 1)
    ensures ops[1].Exit? && ops[1].pid == 2 && ops[2].Exit? && ops[2].pid == 3
    ensures Run(w, 0, ops).Some? && Run(w, 0, ops).value.live == map[]
    ensures Leaf(0, 1) in Run(w, 0, ops).value.mem.pages
  {
    hide Accounted, LooseOf, Start, Step, Allowed, Run;
    var fork := Fork(2, 3, 1);
    var w1, c1;
    w, w1, c1 := ForkedProgram();
    var e1, c2 := FirstExit(w1, c1);
    var e2 := SecondExit(Step(w1, 0, e1).value, c2);
    RunOn(w, [fork], e1, w1);
    RunOn(w, [fork] + [e1], e2, Step(w1, 0, e1).value);
    ops := [fork] + [e1] + [e2];
  }

  lemma ForkedProgram() returns (w: Family, w1: Family, c1: Claims)
    ensures AllLoadable([OnePage()], OneByte()) && Start(Program(), 0, 2, [OnePage()], OneByte()) == Some(w)
    ensures Run(w, 0, [Fork(2, 3, 1)]) == Some(w1) && Accounted(w1, 0, c1)
    ensures w1.live.Keys == {2, 3} && w1.loader == 2 && w1.code == [Range(1, 1)]
  {
    hide Owned, Accounted, LooseOf, Start, ForkStack, ExtraPages;
    ProgramStarts();
    w := Start(Program(), 0, 2, [OnePage()], OneByte()).value;
    var o := EmptyOwned(40);
    var c0, o0 := StartAccounted(Program(), 0, 2, [OnePage()], OneByte(), o);
    ForkSucceeds(w, 2, 3);
    w1 := Step(w, 0, Fork(2, 3, 1)).value;
    c1 := StepAccounted(w, 0, c0, Fork(2, 3, 1));
    RunOn(w, [], Fork(2, 3, 1), w);
    assert [] + [Fork(2, 3, 1)] == [Fork(2, 3, 1)];
  }
}
