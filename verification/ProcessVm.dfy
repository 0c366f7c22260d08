/** The memory of one process as an object.  Members of a fork family share a page
    table, counted by its users, and the end of the heap. */
module ProcessVms {
  import opened Basics
  import opened Frames
  import opened Paging
  import opened Ownership
  import opened Memory
  import opened Heaps
  import opened Stacks
  import opened Loader
  import opened Families
  import opened FamilyRuns

  class PageTable {
    const space: Space
    var users: nat

    constructor (space: Space)
      ensures this.space == space && users == 1
    {
      this.space, users := space, 1;
    }
  }

  lemma OneFewer(live: map<Pid, Stack>, pid: Pid)
    requires pid in live
    ensures |live - {pid}| == |live| - 1
    ensures |live| == 1 <==> live - {pid} == map[]
  {
    assert (live - {pid}).Keys == live.Keys - {pid};
    assert |live - {pid}| == |(live - {pid}).Keys| && |live| == |live.Keys|;
    assert live - {pid} == map[] <==> (live - {pid}).Keys == {};
  }

  class ProcessVm {
    const table: PageTable
    const stack: UserStack
    const heap: Heap
    var code: seq<Range>

    constructor (space: Space)
      ensures fresh(table) && fresh(stack) && fresh(heap.end)
      ensures table.space == space && table.users == 1 && heap.end.value == HEAP_START && code == []
    {
      table := new PageTable(space);
      stack := new UserStack(Stack(STACK_MAX_PAGE - 1, STACK_MAX_PAGE - 1, 0));
      heap := new Heap();
      code := [];
    }

    /** A member of the family that owns none of its code. */
    constructor Share(parent: ProcessVm, s: Stack)
      modifies parent.table
      ensures table == parent.table && table.users == old(parent.table.users) + 1
      ensures heap.end == parent.heap.end && fresh(stack) && stack.Value() == s && code == []
    {
      table := parent.table;
      stack := new UserStack(s);
      heap := new Heap.Fork(parent.heap);
      code := [];
      new;
      table.users := table.users + 1;
    }

    /** The space itself, its top-level table, is there before. */
    method LoadElf(pid: Pid, segs: seq<Segment>, file: Elf, loader: ElfLoader) returns (ok: bool)
      requires AllLoadable(segs, file) && heap.end.value == HEAP_START
      modifies this, stack, loader.mapper, loader.alloc, loader.memory
      ensures var w := Load(old(loader.View()), table.space, pid, segs, file);
              && (ok <==> w.Some?)
              && (ok ==> w.value == Family(loader.View().mem, heap.end.value, map[pid := stack.Value()], code, pid))
    {
      var ranges := loader.Load(table.space, segs, file);
      if ranges.None? {
        return false;
      }
      code := ranges.value;
      ok := stack.Init(table.space, pid, loader.mapper, loader.alloc);
    }

    method Fork(slots: nat, mapper: Mapper, alloc: FrameAllocator, ram: PhysicalMemory) returns (child: ProcessVm?)
      requires StackShape(stack.Value()) && RunMapped(mapper.View(alloc), table.space, stack.start, Len(stack.Value()))
      modifies table, mapper, alloc, ram
      ensures var (m, c) := ForkStack(old(mapper.View(alloc)), table.space, stack.Value(), slots);
              && mapper.View(alloc) == m && (child == null <==> c.None?)
              && (child != null ==>
                    && child.table == table && table.users == old(table.users) + 1 && child.heap.end == heap.end
                    && child.stack.Value() == c.value && child.code == []
                    && ram.bytes == CopyPages(m, old(ram.bytes), table.space, stack.start, c.value.start, stack.usage))
    {
      var c := stack.Fork(table.space, slots, mapper, alloc, ram);
      if c.None? {
        return null;
      }
      child := new ProcessVm.Share(this, c.value);
    }

    method UnmapCode(mapper: Mapper, alloc: FrameAllocator) returns (ok: bool)
      modifies mapper, alloc
      ensures (mapper.View(alloc), ok) == FreeCode(old(mapper.View(alloc)), table.space, code)
    {
      var i := 0;
      while i < |code|
        invariant 0 <= i <= |code|
        invariant FreeCode(mapper.View(alloc), table.space, code[i..]) == FreeCode(old(mapper.View(alloc)), table.space, code)
      {
        assert code[i..][0] == code[i] && code[i..][1..] == code[i + 1..];
        ok := mapper.UnmapRange(table.space, code[i].first, RangeLen(code[i]), alloc);
        if !ok {
          return;
        }
        i := i + 1;
      }
      ok := true;
    }

    /** Frees, in some order, the tables that serve no page any more and the top one. */
    method FreeSpareTables(mapper: Mapper, alloc: FrameAllocator) returns (tables: seq<Table>)
      modifies mapper`tables, alloc
      ensures mapper.View(alloc) == FreeTables(old(mapper.View(alloc)), tables)
      ensures forall t :: t in tables <==> t in SpareTables(old(mapper.View(alloc)), table.space)
    {
      var space, pages := table.space, mapper.pages;
      var spare := set t | t in mapper.tables && t.space == space &&
                           (t == Top(space) || !exists l <- pages :: t in Path(l));
      ghost var m := mapper.View(alloc);
      tables := [];
      while spare != {}
        invariant forall t :: t in SpareTables(m, space) <==> t in tables || t in spare
        invariant spare <= mapper.tables.Keys
        invariant mapper.View(alloc) == FreeTables(m, tables)
        decreases |spare|
      {
        var t :| t in spare;
        FreeTablesThen(m, tables, t);
        alloc.DeallocateFrame(mapper.tables[t]);
        mapper.tables := mapper.tables - {t};
        tables, spare := tables + [t], spare - {t};
      }
    }

    /** The stack always; heap, code and page table when no other process uses it. */
    method CleanUp(debug: bool, mapper: Mapper, alloc: FrameAllocator) returns (r: TearResult, tables: seq<Table>)
      modifies stack, heap.end, mapper, alloc
      ensures var (h, t) := TearDown(old(heap.View(mapper, alloc)), table.space, old(stack.Value()),
                                     table.users == 1, code, debug);
              && r == t
              && heap.View(mapper, alloc) == (if t.Freed? then h.(mem := FreeTables(h.mem, tables)) else h)
              && (t.Freed? ==> forall x :: x in tables <==> x in SpareTables(h.mem, table.space))
    {
      r, tables := Kept, [];
      var ok := stack.CleanUp(table.space, mapper, alloc);
      if !ok {
        r := Broken;
      } else if table.users == 1 {
        var freed := heap.CleanUp(table.space, debug, mapper, alloc);
        if freed.None? {
          r := Stops;
        } else if !freed.value {
          r := Broken;
        } else {
          var done := UnmapCode(mapper, alloc);
          r := if done then Freed else Broken;
          if done {
            tables := FreeSpareTables(mapper, alloc);
          }
        }
      }
    }

    /** Dropping the memory of a process: clean-up, and one user of the table fewer.
        Whatever the state of the rest of the family, this is its step `Exit`. */
    method Drop(pid: Pid, ghost v: Family, debug: bool, mapper: Mapper, alloc: FrameAllocator)
        returns (stops: bool, tables: seq<Table>)
      requires pid in v.live && v.live[pid] == stack.Value() && table.users == |v.live|
      requires HeapState(v.mem, v.end) == heap.View(mapper, alloc)
      requires code == if pid == v.loader then v.code else []
      modifies table, stack, heap.end, mapper, alloc
      ensures table.users == |v.live - {pid}|
      ensures stops <==> TornDown(v, table.space, pid, debug).1.Stops?
      ensures TornDown(v, table.space, pid, debug).1.Freed? ==> Allowed(v, table.space, Exit(pid, debug, tables))
      ensures !stops ==>
                var w := Leave(v, table.space, pid, debug, tables);
                heap.View(mapper, alloc) == HeapState(w.mem, w.end)
    {
      OneFewer(v.live, pid);
      var r;
      r, tables := CleanUp(debug, mapper, alloc);
      stops := r.Stops?;
      table.users := table.users - 1;
    }
  }
}
