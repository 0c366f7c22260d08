/** Page tables as finite maps, with the frames behind them: mapping and
    unmapping runs of pages, and what each outcome leaves behind.  A page table is
    named by its address space. */
module Paging {
  import opened Frames

  type Space = nat
  type Page = nat

  datatype Leaf = Leaf(space: Space, page: Page)

  /** A lower-level table of an address space, by level and by which stretch of
      pages it serves. */
  datatype Table = Table(space: Space, level: nat, index: nat)

  /** The allocator, the mapped pages and the table frames of all spaces. */
  datatype Mem = Mem(pool: Pool, pages: map<Leaf, Frame>, tables: map<Table, Frame>)

  datatype MapResult = Mapped | NoFrame | AlreadyMapped

  function Path(l: Leaf): seq<Table> {
    [Table(l.space, 3, l.page / 0x800_0000), Table(l.space, 2, l.page / 0x4_0000), Table(l.space, 1, l.page / 0x200)]
  }

  /** The missing tables on the way to a page are created one by one; when the
      frames run out those already created stay. */
  function MakeTables(m: Mem, path: seq<Table>): (Mem, bool)
    decreases |path|
  {
    if path == [] then (m, true)
    else if path[0] in m.tables then MakeTables(m, path[1..])
    else
      var (pool, f) := Take(m.pool);
      if f.None? then (m.(pool := pool), false)
      else MakeTables(m.(pool := pool, tables := m.tables[path[0] := f.value]), path[1..])
  }

  function MapTo(m: Mem, l: Leaf, f: Frame): (Mem, MapResult) {
    var (m1, made) := MakeTables(m, Path(l));
    if !made then (m1, NoFrame)
    else if l in m1.pages then (m1, AlreadyMapped)
    else (m1.(pages := m1.pages[l := f]), Mapped)
  }

  /** One page: a frame is taken first, and it is not given back when the mapping
      then fails. */
  function MapPage(m: Mem, l: Leaf): (Mem, MapResult) {
    var (pool, f) := Take(m.pool);
    if f.None? then (m.(pool := pool), NoFrame)
    else MapTo(m.(pool := pool), l, f.value)
  }

  /** A run of pages, up to the first failure; pages mapped before it stay. */
  function MapPages(m: Mem, space: Space, page: Page, count: nat): (Mem, MapResult)
    decreases count
  {
    if count == 0 then (m, Mapped)
    else
      var (m1, r) := MapPage(m, Leaf(space, page));
      if r.Mapped? then MapPages(m1, space, page + 1, count - 1) else (m1, r)
  }

  /** How many pages of a run get mapped before the first failure. */
  function Reached(m: Mem, space: Space, page: Page, count: nat): (j: nat)
    ensures j <= count
    decreases count
  {
    if count == 0 || !MapPage(m, Leaf(space, page)).1.Mapped? then 0
    else 1 + Reached(MapPage(m, Leaf(space, page)).0, space, page + 1, count - 1)
  }

  /** A run of pages is unmapped up to the first that is not mapped; the frames
      go back to the allocator. */
  function UnmapPages(m: Mem, space: Space, page: Page, count: nat): (Mem, bool)
    decreases count
  {
    if count == 0 then (m, true)
    else if Leaf(space, page) !in m.pages then (m, false)
    else
      var f := m.pages[Leaf(space, page)];
      UnmapPages(m.(pages := m.pages - {Leaf(space, page)}, pool := Give(m.pool, f)), space, page + 1, count - 1)
  }

  // ---------------------------------------------------------------------------
  // What mapping and unmapping do to the page tables
  // ---------------------------------------------------------------------------

  predicate InRun(l: Leaf, space: Space, page: Page, count: nat) {
    l.space == space && page <= l.page < page + count
  }

  predicate Between(p: Page, page: Page, count: nat) { page <= p < page + count }

  function PageRun(page: Page, count: nat): set<Page> {
    set p: Page | page <= p < page + count && Between(p, page, count)
  }

  ghost predicate RunFree(m: Mem, space: Space, page: Page, count: nat) {
    forall l :: InRun(l, space, page, count) ==> l !in m.pages
  }

  ghost predicate RunMapped(m: Mem, space: Space, page: Page, count: nat) {
    forall l :: InRun(l, space, page, count) ==> l in m.pages
  }

  /** `m'` has exactly the pages of `m` and the first `j` of the run, all that
      were there before unchanged. */
  ghost predicate Extends(m: Mem, m': Mem, space: Space, page: Page, j: nat) {
    && RunFree(m, space, page, j)
    && (forall l :: l in m'.pages <==> l in m.pages || InRun(l, space, page, j))
    && (forall l :: l in m.pages ==> l in m'.pages && m'.pages[l] == m.pages[l])
  }

  lemma {:induction false} TablesKeepPages(m: Mem, path: seq<Table>)
    ensures MakeTables(m, path).0.pages == m.pages
    ensures Available(m.pool) <= Available(MakeTables(m, path).0.pool) + |path|
    ensures Available(m.pool) >= |path| ==> MakeTables(m, path).1
    decreases |path|
  {
    if path != [] {
      if path[0] in m.tables {
        TablesKeepPages(m, path[1..]);
      } else {
        var (pool, f) := Take(m.pool);
        if f.Some? {
          TablesKeepPages(m.(pool := pool, tables := m.tables[path[0] := f.value]), path[1..]);
        }
      }
    }
  }

  lemma MapPageIs(m: Mem, l: Leaf)
    ensures var (m', r) := MapPage(m, l);
            && (r.Mapped? ==> l !in m.pages && m'.pages.Keys == m.pages.Keys + {l}
                              && forall x :: x in m.pages ==> m'.pages[x] == m.pages[x])
            && (!r.Mapped? ==> m'.pages == m.pages)
            && (r.AlreadyMapped? ==> l in m.pages)
            && Available(m.pool) <= Available(m'.pool) + 4
            && (Available(m.pool) >= 4 ==> !r.NoFrame? && (r.Mapped? <==> l !in m.pages))
  {
    var (pool, f) := Take(m.pool);
    TablesKeepPages(m.(pool := pool), Path(l));
  }

  lemma ExtendsOneMore(m: Mem, m1: Mem, m': Mem, space: Space, page: Page, j: nat)
    requires Leaf(space, page) !in m.pages && m1.pages.Keys == m.pages.Keys + {Leaf(space, page)}
    requires forall l :: l in m.pages ==> m1.pages[l] == m.pages[l]
    requires Extends(m1, m', space, page + 1, j)
    ensures Extends(m, m', space, page, j + 1)
  {
    var n := j + 1;
    forall l ensures InRun(l, space, page, n) <==> l == Leaf(space, page) || InRun(l, space, page + 1, j) {}
  }

  lemma ExtendsByNone(m: Mem, m': Mem, space: Space, page: Page)
    requires m'.pages == m.pages
    ensures Extends(m, m', space, page, 0)
  {
  }

  /** Mapping a run: on success exactly the run has been added; on failure a
      proper first part of it, the page after that part being the cause. */
  lemma {:induction false} MapPagesIs(m: Mem, space: Space, page: Page, count: nat) returns (j: nat)
    ensures j == Reached(m, space, page, count)
    ensures MapPages(m, space, page, count).1.Mapped? <==> j == count
    ensures Extends(m, MapPages(m, space, page, count).0, space, page, j)
    ensures MapPages(m, space, page, count).1.AlreadyMapped? ==> Leaf(space, page + j) in m.pages
    decreases count
  {
    hide Extends, MapPage;
    var l := Leaf(space, page);
    MapPageIs(m, l);
    if count == 0 || !MapPage(m, l).1.Mapped? {
      j := 0;
      ExtendsByNone(m, MapPages(m, space, page, count).0, space, page);
    } else {
      var m1 := MapPage(m, l).0;
      var j1 := MapPagesIs(m1, space, page + 1, count - 1);
      j := 1 + j1;
      ExtendsOneMore(m, m1, MapPages(m1, space, page + 1, count - 1).0, space, page, j1);
    }
  }

  lemma ExtendsTwice(m: Mem, m1: Mem, m2: Mem, space: Space, page: Page, i: nat, j: nat)
    requires Extends(m, m1, space, page, i) && Extends(m1, m2, space, page + i, j)
    ensures Extends(m, m2, space, page, i + j)
  {
    var n := i + j;
    forall l ensures InRun(l, space, page, n) <==> InRun(l, space, page, i) || InRun(l, space, page + i, j) {}
  }

  lemma RunFreeNext(m: Mem, m1: Mem, space: Space, page: Page, count: nat)
    requires count > 0 && Leaf(space, page) !in m.pages && m1.pages.Keys == m.pages.Keys + {Leaf(space, page)}
    ensures RunFree(m, space, page, count) <==> RunFree(m1, space, page + 1, count - 1)
  {
    forall l ensures InRun(l, space, page, count) <==> l == Leaf(space, page) || InRun(l, space, page + 1, count - 1) {}
  }

  /** With four frames a page in hand a run is mapped exactly when no page of it
      was mapped before. */
  lemma {:induction false} MapPagesSucceeds(m: Mem, space: Space, page: Page, count: nat)
    requires Available(m.pool) >= 4 * count
    ensures MapPages(m, space, page, count).1 == if RunFree(m, space, page, count) then Mapped else AlreadyMapped
    ensures Available(m.pool) <= Available(MapPages(m, space, page, count).0.pool) + 4 * count
    decreases count
  {
    if count > 0 {
      hide MapPage;
      var l := Leaf(space, page);
      MapPageIs(m, l);
      assert InRun(l, space, page, count);
      if MapPage(m, l).1.Mapped? {
        hide RunFree;
        var m1 := MapPage(m, l).0;
        MapPagesSucceeds(m1, space, page + 1, count - 1);
        RunFreeNext(m, m1, space, page, count);
      }
    }
  }

  /** And otherwise it gets exactly as far as the first page that was mapped. */
  lemma ReachesFirstMapped(m: Mem, space: Space, page: Page, count: nat)
    requires Available(m.pool) >= 4 * count && !RunFree(m, space, page, count)
    ensures var j := Reached(m, space, page, count);
            j < count && RunFree(m, space, page, j) && Leaf(space, page + j) in m.pages
  {
    MapPagesSucceeds(m, space, page, count);
    var j := MapPagesIs(m, space, page, count);
  }

  /** Unmapping a run of mapped pages removes exactly that run. */
  lemma {:induction false} UnmapPagesIs(m: Mem, space: Space, page: Page, count: nat)
    ensures UnmapPages(m, space, page, count).1 <==> RunMapped(m, space, page, count)
    ensures var m' := UnmapPages(m, space, page, count).0;
            && m'.tables == m.tables
            && (forall l :: l in m'.pages ==> l in m.pages && m'.pages[l] == m.pages[l])
            && (forall l :: l in m.pages && !InRun(l, space, page, count) ==> l in m'.pages)
    ensures RunMapped(m, space, page, count) ==> RunFree(UnmapPages(m, space, page, count).0, space, page, count)
    decreases count
  {
    if count > 0 {
      assert InRun(Leaf(space, page), space, page, count);
      if Leaf(space, page) in m.pages {
        var m1 := m.(pages := m.pages - {Leaf(space, page)}, pool := Give(m.pool, m.pages[Leaf(space, page)]));
        UnmapPagesIs(m1, space, page + 1, count - 1);
        forall l ensures InRun(l, space, page, count) <==> l == Leaf(space, page) || InRun(l, space, page + 1, count - 1) {}
      }
    }
  }

  /** What has just been mapped can be unmapped, and that restores the pages. */
  lemma UnmapUndoesMap(m: Mem, space: Space, page: Page, count: nat)
    requires MapPages(m, space, page, count).1.Mapped?
    ensures var m1 := MapPages(m, space, page, count).0;
            var (m2, ok) := UnmapPages(m1, space, page, count);
            ok && m2.pages == m.pages
  {
    var j := MapPagesIs(m, space, page, count);
    UnmapPagesIs(MapPages(m, space, page, count).0, space, page, count);
  }

  // ---------------------------------------------------------------------------
  // How many frames a mapping takes
  // ---------------------------------------------------------------------------

  /** Two pages of a space share their table of the lowest level exactly if they are in one
      stretch of 512 pages, that of the next exactly if these stretches are in one of 512,
      and so on. */
  lemma SharedTables(a: Leaf, b: Leaf)
    requires a.space == b.space
    ensures Path(a)[2] == Path(b)[2] <==> a.page / 512 == b.page / 512
    ensures Path(a)[1] == Path(b)[1] <==> a.page / 512 / 512 == b.page / 512 / 512
    ensures Path(a)[0] == Path(b)[0] <==> a.page / 512 / 512 / 512 == b.page / 512 / 512 / 512
  {
    Nested(a.page);
    Nested(b.page);
  }

  lemma Nested(x: nat)
    ensures x / 512 / 512 == x / 0x4_0000 && x / 512 / 512 / 512 == x / 0x800_0000
  {
  }

  /** The tables of `path` that are missing, each counted once. */
  function Missing(m: Mem, path: seq<Table>): nat {
    if path == [] then 0
    else Missing(m, path[1..]) + if path[0] in m.tables || path[0] in path[1..] then 0 else 1
  }

  ghost predicate Distinct(path: seq<Table>) { forall i, j :: 0 <= i < j < |path| ==> path[i] != path[j] }

  lemma {:induction false} MissingLater(m: Mem, m1: Mem, path: seq<Table>)
    requires forall t <- path :: t in m1.tables <==> t in m.tables
    ensures Missing(m1, path) == Missing(m, path)
  {
    if path != [] {
      MissingLater(m, m1, path[1..]);
    }
  }

  lemma {:induction false} TablesTake(m: Mem, path: seq<Table>)
    requires Distinct(path) && MakeTables(m, path).1
    ensures Available(m.pool) == Available(MakeTables(m, path).0.pool) + Missing(m, path)
    ensures forall t :: t in MakeTables(m, path).0.tables <==> t in m.tables || t in path
    decreases |path|
  {
    if path != [] {
      assert path == [path[0]] + path[1..];
      if path[0] in m.tables {
        TablesTake(m, path[1..]);
      } else {
        var (pool, f) := Take(m.pool);
        var m1 := m.(pool := pool, tables := m.tables[path[0] := f.value]);
        assert forall t <- path[1..] :: t != path[0];
        MissingLater(m, m1, path[1..]);
        TablesTake(m1, path[1..]);
      }
    }
  }

  /** A page takes one frame for itself and one for each missing table on the way. */
  lemma PageTakes(m: Mem, l: Leaf)
    requires MapPage(m, l).1.Mapped?
    ensures Available(m.pool) == Available(MapPage(m, l).0.pool) + 1 + Missing(m, Path(l))
    ensures forall t :: t in MapPage(m, l).0.tables <==> t in m.tables || t in Path(l)
  {
    var pool := Take(m.pool).0;
    MissingLater(m, m.(pool := pool), Path(l));
    TablesTake(m.(pool := pool), Path(l));
  }

  lemma NoneMissing(m: Mem, l: Leaf)
    ensures Missing(m, Path(l)) == 0 <==> forall t <- Path(l) :: t in m.tables
    ensures (forall t <- Path(l) :: t !in m.tables) ==> Missing(m, Path(l)) == 3
  {
    var path := Path(l);
    var a, b, c := path[0], path[1], path[2];
    assert path[1..] == [b, c] && [b, c][1..] == [c];
    assert Missing(m, [c]) == if c in m.tables then 0 else 1;
    assert Missing(m, [b, c]) == Missing(m, [c]) + if b in m.tables then 0 else 1;
  }

  lemma SamePath(space: Space, a: Page, b: Page)
    requires a / 512 == b / 512
    ensures Path(Leaf(space, a)) == Path(Leaf(space, b))
  {
    assert a / 512 / 512 == b / 512 / 512 && a / 512 / 512 / 512 == b / 512 / 512 / 512;
    SharedTables(Leaf(space, a), Leaf(space, b));
  }

  /** Pages of one stretch of 512 whose tables are there take one frame each. */
  lemma {:induction false} PagesTake(m: Mem, space: Space, page: Page, count: nat)
    requires MapPages(m, space, page, count).1.Mapped?
    requires count > 0 ==> page / 512 == (page + count - 1) / 512
    requires forall t <- Path(Leaf(space, page)) :: t in m.tables
    ensures Available(m.pool) == Available(MapPages(m, space, page, count).0.pool) + count
    decreases count
  {
    hide MapPage, Path;
    if count > 0 {
      var l := Leaf(space, page);
      PageTakes(m, l);
      NoneMissing(m, l);
      if count > 1 {
        SamePath(space, page, page + 1);
        PagesTake(MapPage(m, l).0, space, page + 1, count - 1);
      }
    }
  }

  /** So the first mapping in a space that has none of the tables for it takes three frames
      more than it has pages. */
  lemma FirstPagesTake(m: Mem, space: Space, page: Page, count: nat)
    requires MapPages(m, space, page, count).1.Mapped? && count > 0 && page / 512 == (page + count - 1) / 512
    requires forall t <- Path(Leaf(space, page)) :: t !in m.tables
    ensures Available(m.pool) == Available(MapPages(m, space, page, count).0.pool) + count + 3
  {
    hide MapPage, Path;
    var l := Leaf(space, page);
    PageTakes(m, l);
    NoneMissing(m, l);
    if count > 1 {
      SamePath(space, page, page + 1);
      PagesTake(MapPage(m, l).0, space, page + 1, count - 1);
    }
  }

  // ---------------------------------------------------------------------------
  // The loops, in place
  // ---------------------------------------------------------------------------

  /** The page tables as an object; the frame allocator is passed to it. */
  class Mapper {
    var pages: map<Leaf, Frame>
    var tables: map<Table, Frame>

    ghost function View(alloc: FrameAllocator): Mem
      reads this, alloc
    {
      Mem(alloc.Value(), pages, tables)
    }

    method EnsureTables(path: seq<Table>, alloc: FrameAllocator) returns (made: bool)
      modifies this`tables, alloc
      ensures (View(alloc), made) == MakeTables(old(View(alloc)), path)
    {
      var i := 0;
      while i < |path|
        invariant 0 <= i <= |path|
        invariant MakeTables(View(alloc), path[i..]) == MakeTables(old(View(alloc)), path)
      {
        assert path[i..][0] == path[i] && path[i..][1..] == path[i + 1..];
        if path[i] !in tables {
          var f := alloc.AllocateFrame();
          if f.None? {
            return false;
          }
          tables := tables[path[i] := f.value];
        }
        i := i + 1;
      }
      made := true;
    }

    method Map(l: Leaf, f: Frame, alloc: FrameAllocator) returns (r: MapResult)
      modifies this, alloc
      ensures (View(alloc), r) == MapTo(old(View(alloc)), l, f)
    {
      var made := EnsureTables(Path(l), alloc);
      if !made {
        r := NoFrame;
      } else if l in pages {
        r := AlreadyMapped;
      } else {
        pages := pages[l := f];
        r := Mapped;
      }
    }

    method MapRange(space: Space, page: Page, count: nat, alloc: FrameAllocator) returns (r: MapResult)
      modifies this, alloc
      ensures (View(alloc), r) == MapPages(old(View(alloc)), space, page, count)
    {
      var i := 0;
      while i < count
        invariant 0 <= i <= count
        invariant MapPages(View(alloc), space, page + i, count - i) == MapPages(old(View(alloc)), space, page, count)
      {
        var f := alloc.AllocateFrame();
        if f.None? {
          return NoFrame;
        }
        r := Map(Leaf(space, page + i), f.value, alloc);
        if !r.Mapped? {
          return;
        }
        i := i + 1;
      }
      r := Mapped;
    }

    method UnmapRange(space: Space, page: Page, count: nat, alloc: FrameAllocator) returns (ok: bool)
      modifies this`pages, alloc
      ensures (View(alloc), ok) == UnmapPages(old(View(alloc)), space, page, count)
    {
      var i := 0;
      while i < count
        invariant 0 <= i <= count
        invariant UnmapPages(View(alloc), space, page + i, count - i) == UnmapPages(old(View(alloc)), space, page, count)
      {
        var l := Leaf(space, page + i);
        if l !in pages {
          return false;
        }
        var f := pages[l];
        pages := pages - {l};
        alloc.DeallocateFrame(f);
        i := i + 1;
      }
      ok := true;
    }
  }
}
