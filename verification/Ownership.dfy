/** Who owns which physical frame, over every sequence of memory operations by
    any address spaces. */
module Ownership {
  import opened Basics
  import opened Frames
  import opened Paging
  import opened Memory

  /** `Held` is a frame that has been taken and not yet mapped; `Lost` one that
      nothing refers to any more. */
  datatype Owner = Unused | Recycled | AtLeaf(l: Leaf) | AtTable(t: Table) | Held | Lost

  type Owners = map<Frame, Owner>

  ghost predicate PoolOwned(p: Pool, o: Owners) {
    && NoDup(p.unused) && NoDup(p.recycled)
    && (forall f :: f in p.unused <==> f in o && o[f] == Unused)
    && (forall f :: f in p.recycled <==> f in o && o[f] == Recycled)
  }

  ghost predicate LeavesOwned(pages: map<Leaf, Frame>, o: Owners) {
    && (forall l :: l in pages ==> pages[l] in o && o[pages[l]] == AtLeaf(l))
    && (forall f :: f in o && o[f].AtLeaf? ==> o[f].l in pages && pages[o[f].l] == f)
  }

  ghost predicate TablesOwned(tables: map<Table, Frame>, o: Owners) {
    && (forall t :: t in tables ==> tables[t] in o && o[tables[t]] == AtTable(t))
    && (forall f :: f in o && o[f].AtTable? ==> o[f].t in tables && tables[o[f].t] == f)
  }

  /** The owners are right for every frame: since each frame has one owner, the
      supply, the recycled stack, the pages and the tables never share one. */
  ghost predicate Owned(m: Mem, o: Owners) {
    PoolOwned(m.pool, o) && LeavesOwned(m.pages, o) && TablesOwned(m.tables, o)
  }

  /** The same frames, of which exactly those of `lost` became lost and none
      became or ceased to be held. */
  ghost predicate Fate(o: Owners, o': Owners, lost: set<Frame>) {
    && o'.Keys == o.Keys
    && (forall f :: f in lost ==> f in o && o[f] != Lost)
    && (forall f :: f in o ==> (o'[f] == Lost <==> o[f] == Lost || f in lost))
    && (forall f :: f in o ==> (o'[f] == Held <==> o[f] == Held))
  }

  lemma LastIsApart(s: seq<Frame>)
    requires NoDup(s) && s != []
    ensures forall f :: f in s[..|s| - 1] <==> f in s && f != s[|s| - 1]
  {
    assert s == s[..|s| - 1] + [s[|s| - 1]];
  }

  lemma FirstIsApart(s: seq<Frame>)
    requires NoDup(s) && s != []
    ensures forall f :: f in s[1..] <==> f in s && f != s[0]
  {
    assert s == [s[0]] + s[1..];
  }

  /** A frame drawn from the allocator is held by nobody else. */
  lemma TakeOwned(m: Mem, o: Owners) returns (o': Owners)
    requires Owned(m, o)
    ensures o'.Keys == o.Keys
    ensures var (pool, f) := Take(m.pool);
            && Owned(m.(pool := pool), o')
            && o' == (if f.Some? then o[f.value := Held] else o)
            && (f.Some? ==> f.value in o && (o[f.value] == Unused || o[f.value] == Recycled))
  {
    var a := m.pool;
    if a.recycled != [] {
      LastIsApart(a.recycled);
      o' := o[a.recycled[|a.recycled| - 1] := Held];
    } else if a.unused != [] {
      FirstIsApart(a.unused);
      o' := o[a.unused[0] := Held];
    } else {
      o' := o;
    }
  }

  lemma GiveOwned(m: Mem, o: Owners, f: Frame)
    requires Owned(m, o) && f in o && o[f] == Held
    ensures Owned(m.(pool := Give(m.pool, f)), o[f := Recycled])
  {
    NoDupAppend(m.pool.recycled, [f]);
  }

  lemma PutTableOwned(m: Mem, o: Owners, t: Table, f: Frame)
    requires Owned(m, o) && f in o && o[f] == Held && t !in m.tables
    ensures Owned(m.(tables := m.tables[t := f]), o[f := AtTable(t)])
  {
  }

  lemma PutLeafOwned(m: Mem, o: Owners, l: Leaf, f: Frame)
    requires Owned(m, o) && f in o && o[f] == Held && l !in m.pages
    ensures Owned(m.(pages := m.pages[l := f]), o[f := AtLeaf(l)])
  {
  }

  lemma PickLeafOwned(m: Mem, o: Owners, l: Leaf)
    requires Owned(m, o) && l in m.pages
    ensures m.pages[l] in o && Owned(m.(pages := m.pages - {l}), o[m.pages[l] := Held])
  {
  }

  lemma LoseOwned(m: Mem, o: Owners, f: Frame)
    requires Owned(m, o) && f in o && o[f] == Held
    ensures Owned(m, o[f := Lost])
  {
  }

  lemma {:induction false} MakeTablesOwned(m: Mem, path: seq<Table>, o: Owners) returns (o': Owners)
    requires Owned(m, o)
    ensures Owned(MakeTables(m, path).0, o') && Fate(o, o', {})
    decreases |path|
  {
    hide Owned;
    o' := o;
    if path != [] {
      if path[0] in m.tables {
        o' := MakeTablesOwned(m, path[1..], o);
      } else {
        var (pool, f) := Take(m.pool);
        var o1 := TakeOwned(m, o);
        if f.Some? {
          PutTableOwned(m.(pool := pool), o1, path[0], f.value);
          var o2 := o1[f.value := AtTable(path[0])];
          o' := MakeTablesOwned(m.(pool := pool, tables := m.tables[path[0] := f.value]), path[1..], o2);
        }
      }
    }
  }

  /** What is lost by mapping one page: the frame taken for it, when the mapping
      then fails. */
  function LostBy(m: Mem, l: Leaf): set<Frame> {
    var (_, f) := Take(m.pool);
    if MapPage(m, l).1.Mapped? || f.None? then {} else {f.value}
  }

  lemma MapPageOwned(m: Mem, l: Leaf, o: Owners) returns (o': Owners)
    requires Owned(m, o)
    ensures Owned(MapPage(m, l).0, o') && Fate(o, o', LostBy(m, l))
  {
    hide Owned, MakeTables;
    var (pool, f) := Take(m.pool);
    var o1 := TakeOwned(m, o);
    if f.None? {
      o' := o1;
    } else {
      var m1 := m.(pool := pool);
      var m2 := MakeTables(m1, Path(l)).0;
      var o2 := MakeTablesOwned(m1, Path(l), o1);
      if MapPage(m, l).1.Mapped? {
        PutLeafOwned(m2, o2, l, f.value);
        o' := o2[f.value := AtLeaf(l)];
      } else {
        LoseOwned(m2, o2, f.value);
        o' := o2[f.value := Lost];
      }
    }
  }

  /** Mapping the run fails at a page for which a frame had been taken already. */
  predicate FrameTaken(m: Mem, space: Space, page: Page, count: nat)
    decreases count
  {
    && count > 0
    && var (m1, r) := MapPage(m, Leaf(space, page));
       if r.Mapped? then FrameTaken(m1, space, page + 1, count - 1) else Take(m.pool).1.Some?
  }

  /** That is never so on success, and always when a page was mapped before. */
  lemma {:induction false} FrameTakenIf(m: Mem, space: Space, page: Page, count: nat)
    ensures MapPages(m, space, page, count).1.Mapped? ==> !FrameTaken(m, space, page, count)
    ensures MapPages(m, space, page, count).1.AlreadyMapped? ==> FrameTaken(m, space, page, count)
    decreases count
  {
    if count > 0 && MapPage(m, Leaf(space, page)).1.Mapped? {
      FrameTakenIf(MapPage(m, Leaf(space, page)).0, space, page + 1, count - 1);
    }
  }

  /** A run of pages loses exactly one frame if it fails at a page that had got its
      frame, and otherwise none. */
  lemma {:induction false} MapPagesOwned(m: Mem, space: Space, page: Page, count: nat, o: Owners)
      returns (o': Owners, lost: set<Frame>)
    requires Owned(m, o)
    ensures Owned(MapPages(m, space, page, count).0, o') && Fate(o, o', lost)
    ensures |lost| == if FrameTaken(m, space, page, count) then 1 else 0
    decreases count
  {
    if count == 0 {
      o', lost := o, {};
    } else {
      var (m1, r) := MapPage(m, Leaf(space, page));
      var o1 := MapPageOwned(m, Leaf(space, page), o);
      if r.Mapped? {
        o', lost := MapPagesOwned(m1, space, page + 1, count - 1, o1);
      } else {
        o', lost := o1, LostBy(m, Leaf(space, page));
      }
    }
  }

  lemma UnmapOneOwned(m: Mem, l: Leaf, o: Owners)
    requires Owned(m, o) && l in m.pages
    ensures m.pages[l] in o
    ensures Owned(m.(pages := m.pages - {l}, pool := Give(m.pool, m.pages[l])), o[m.pages[l] := Recycled])
    ensures Fate(o, o[m.pages[l] := Recycled], {})
  {
    var f := m.pages[l];
    PickLeafOwned(m, o, l);
    GiveOwned(m.(pages := m.pages - {l}), o[f := Held], f);
    assert o[f := Held][f := Recycled] == o[f := Recycled];
  }

  /** Unmapping loses nothing, whether or not it gets to the end. */
  lemma {:induction false} UnmapPagesOwned(m: Mem, space: Space, page: Page, count: nat, o: Owners)
      returns (o': Owners)
    requires Owned(m, o)
    ensures Owned(UnmapPages(m, space, page, count).0, o') && Fate(o, o', {})
    decreases count
  {
    o' := o;
    var l := Leaf(space, page);
    if count > 0 && l in m.pages {
      UnmapOneOwned(m, l, o);
      var m1 := m.(pages := m.pages - {l}, pool := Give(m.pool, m.pages[l]));
      o' := UnmapPagesOwned(m1, space, page + 1, count - 1, o[m.pages[l] := Recycled]);
    }
  }

  // ---------------------------------------------------------------------------
  // All runs
  // ---------------------------------------------------------------------------

  /** Everything the address spaces do comes down to these.  A new space takes a
      frame for its top-level table, named `Table(space, 4, 0)`; tables are freed
      one by one when a space is taken down. */
  datatype MemOp =
    | MapRun(space: Space, page: Page, count: nat)
    | UnmapRun(space: Space, page: Page, count: nat)
    | NewSpace(space: Space)
    | FreeTable(t: Table)

  function Top(space: Space): Table { Table(space, 4, 0) }

  function Apply(m: Mem, op: MemOp): Mem {
    match op
    case MapRun(space, page, count) => MapPages(m, space, page, count).0
    case UnmapRun(space, page, count) => UnmapPages(m, space, page, count).0
    case NewSpace(space) => MakeTables(m, [Top(space)]).0
    case FreeTable(t) =>
      if t in m.tables then m.(tables := m.tables - {t}, pool := Give(m.pool, m.tables[t])) else m
  }

  function ApplyAll(m: Mem, ops: seq<MemOp>): Mem {
    if ops == [] then m else Apply(ApplyAll(m, ops[..|ops| - 1]), ops[|ops| - 1])
  }

  /** A mapping that did not get to its end. */
  predicate Fails(m: Mem, op: MemOp) {
    op.MapRun? && !MapPages(m, op.space, op.page, op.count).1.Mapped?
  }

  lemma FreeTableOwned(m: Mem, t: Table, o: Owners) returns (o': Owners)
    requires Owned(m, o)
    ensures Owned(Apply(m, FreeTable(t)), o') && Fate(o, o', {})
  {
    o' := o;
    if t in m.tables {
      var f := m.tables[t];
      var m1, o1 := m.(tables := m.tables - {t}), o[f := Held];
      assert Owned(m1, o1);
      GiveOwned(m1, o1, f);
      o' := o1[f := Recycled];
    }
  }

  /** A mapping that loses a frame. */
  predicate Loses(m: Mem, op: MemOp) { op.MapRun? && FrameTaken(m, op.space, op.page, op.count) }

  lemma ApplyOwned(m: Mem, op: MemOp, o: Owners) returns (o': Owners, lost: set<Frame>)
    requires Owned(m, o)
    ensures Owned(Apply(m, op), o') && Fate(o, o', lost) && |lost| == if Loses(m, op) then 1 else 0
  {
    lost := {};
    match op
    case MapRun(space, page, count) => o', lost := MapPagesOwned(m, space, page, count, o);
    case UnmapRun(space, page, count) => o' := UnmapPagesOwned(m, space, page, count, o);
    case NewSpace(space) => o' := MakeTablesOwned(m, [Top(space)], o);
    case FreeTable(t) => o' := FreeTableOwned(m, t, o);
  }

  function Failures(m: Mem, ops: seq<MemOp>): nat {
    if ops == [] then 0
    else
      var n := |ops| - 1;
      Failures(m, ops[..n]) + if Fails(ApplyAll(m, ops[..n]), ops[n]) then 1 else 0
  }

  function Losses(m: Mem, ops: seq<MemOp>): nat {
    if ops == [] then 0
    else
      var n := |ops| - 1;
      Losses(m, ops[..n]) + if Loses(ApplyAll(m, ops[..n]), ops[n]) then 1 else 0
  }

  lemma {:induction false} LossesAreFailures(m: Mem, ops: seq<MemOp>)
    ensures Losses(m, ops) <= Failures(m, ops)
    decreases |ops|
  {
    if ops != [] {
      var n := |ops| - 1;
      LossesAreFailures(m, ops[..n]);
      if ops[n].MapRun? {
        FrameTakenIf(ApplyAll(m, ops[..n]), ops[n].space, ops[n].page, ops[n].count);
      }
    }
  }

  lemma {:induction false} ApplyAllFirst(m: Mem, op: MemOp, ops: seq<MemOp>)
    ensures ApplyAll(m, [op] + ops) == ApplyAll(Apply(m, op), ops)
    ensures Failures(m, [op] + ops) == Failures(Apply(m, op), ops) + if Fails(m, op) then 1 else 0
    ensures Losses(m, [op] + ops) == Losses(Apply(m, op), ops) + if Loses(m, op) then 1 else 0
    decreases |ops|
  {
    var all, n := [op] + ops, |ops|;
    if n == 0 {
      assert all == [op] && all[..0] == [];
    } else {
      assert all[..n] == [op] + ops[..n - 1] && all[n] == ops[n - 1];
      ApplyAllFirst(m, op, ops[..n - 1]);
    }
  }

  lemma FatesJoin(o: Owners, o1: Owners, o2: Owners, lost1: set<Frame>, lost2: set<Frame>)
    requires Fate(o, o1, lost1) && Fate(o1, o2, lost2)
    ensures Fate(o, o2, lost1 + lost2) && |lost1 + lost2| == |lost1| + |lost2|
  {
    assert lost1 !! lost2;
  }

  /** From any memory whose frames all have an owner: they still have exactly one
      after any operations by any spaces, and exactly as many frames are lost as
      mappings failed at a page that had got its frame. */
  lemma {:induction false} ApplyAllOwned(m: Mem, ops: seq<MemOp>, o: Owners) returns (o': Owners, lost: set<Frame>)
    requires Owned(m, o)
    ensures Owned(ApplyAll(m, ops), o') && Fate(o, o', lost) && |lost| == Losses(m, ops)
    decreases |ops|
  {
    o', lost := o, {};
    if ops != [] {
      hide Owned, Fate, Apply, Loses;
      var n := |ops| - 1;
      var o1, lost1 := ApplyAllOwned(m, ops[..n], o);
      var lost2;
      o', lost2 := ApplyOwned(ApplyAll(m, ops[..n]), ops[n], o1);
      lost := lost1 + lost2;
      FatesJoin(o, o1, o', lost1, lost2);
    }
  }

  /** From boot on, every usable frame always has exactly one owner: it is unused,
      recycled, behind one page, a table, or lost, one for each mapping that failed
      at a page that had got its frame. */
  lemma FramesArePartitioned(regions: seq<Region>, ops: seq<MemOp>) returns (o: Owners, lost: set<Frame>)
    requires GoodMap(regions)
    ensures var boot := Mem(Pool(FrameList(regions), [], 0), map[], map[]);
            && Owned(ApplyAll(boot, ops), o)
            && (forall f :: f in o <==> exists r :: r in regions && InRegion(r, f))
            && (forall f :: f in o ==> o[f] != Held && (o[f] == Lost <==> f in lost))
            && |lost| == Losses(boot, ops)
  {
    var boot := Mem(Pool(FrameList(regions), [], 0), map[], map[]);
    FrameListIsUsable(regions);
    var o0: Owners := map f | f in FrameList(regions) :: Unused;
    o, lost := ApplyAllOwned(boot, ops, o0);
  }

  /** In particular no frame backs two pages. */
  lemma OwnedIsInjective(m: Mem, o: Owners)
    requires Owned(m, o)
    ensures Injective(m)
  {
  }
}
