/** Loading a program: each segment's bytes are copied into fresh frames, the rest
    of its last page and its bss are zeroed, and the pages are mapped on the way. */
module Loader {
  import opened Basics
  import opened Frames
  import opened Paging
  import opened Memory
  import opened Ownership

  datatype Segment = Segment(offset: nat, vaddr: nat, fileSize: nat, memSize: nat)

  /** The program file in memory, what lies behind it there, and whether the loader is
      built with overflow checks. */
  datatype Elf = Elf(bytes: seq<Byte>, behind: nat -> Byte, checks: bool)

  function FileByte(file: Elf, i: nat): Byte {
    if i < |file.bytes| then file.bytes[i] else file.behind(i - |file.bytes|)
  }

  /** What the format asks of a segment: its bytes lie in the file and fit in memory. */
  predicate Loadable(s: Segment, file: Elf) {
    s.fileSize <= s.memSize && s.offset + s.fileSize <= |file.bytes|
  }

  /** The pages from that of the first byte to that of the last byte of the file part. */
  function FilePages(s: Segment): nat {
    if s.vaddr + s.fileSize == 0 then 0 else (s.vaddr + s.fileSize - 1) / PAGE_SIZE + 1 - s.vaddr / PAGE_SIZE
  }

  /** The address of the last byte is below zero. */
  predicate Blank(s: Segment) { s.vaddr + s.fileSize == 0 }

  /** The last page begins past the bytes to copy: what is left of them is computed below
      zero, and without overflow checks taken for more than a page. */
  predicate Wraps(s: Segment) { FilePages(s) * PAGE_SIZE > s.fileSize + PAGE_SIZE }

  predicate Stops(s: Segment, file: Elf) { Blank(s) || (file.checks && Wraps(s)) }

  /** The bytes that are copied: as many as the segment has, but from the start of the
      page of the file on which it begins; and a whole page more, at its own place, if
      the count wraps. */
  function CopiedBytes(s: Segment, file: Elf): seq<Byte> {
    var base := s.offset / PAGE_SIZE * PAGE_SIZE;
    var part := seq(s.fileSize, i => if i >= 0 then FileByte(file, base + i) else 0);
    if !Wraps(s) then part
    else
      var last := (FilePages(s) - 1) * PAGE_SIZE;
      part + Zeros(last - s.fileSize) + seq(PAGE_SIZE, i => if i >= 0 then FileByte(file, base + last + i) else 0)
  }

  /** Page tables, allocator and memory contents. */
  datatype Image = Image(mem: Mem, ram: Ram)

  function Zeros(n: nat): seq<Byte> { seq(n, _ => 0) }

  /** One page: the bytes are stored before the page is mapped, and the rest of the
      frame is zeroed after. */
  function LoadPage(v: Image, l: Leaf, bytes: seq<Byte>): (Image, MapResult) {
    var (pool, f) := Take(v.mem.pool);
    if f.None? then (v.(mem := v.mem.(pool := pool)), NoFrame)
    else
      var ram1 := Store(v.ram, f.value, 0, bytes);
      var (m, r) := MapTo(v.mem.(pool := pool), l, f.value);
      if !r.Mapped? then (Image(m, ram1), r)
      else if |bytes| < PAGE_SIZE then
        (Image(m, Store(ram1, f.value, |bytes|, Zeros(PAGE_SIZE - |bytes|))), Mapped)
      else (Image(m, ram1), Mapped)
  }

  function Chunk(bytes: seq<Byte>): seq<Byte> { if |bytes| < PAGE_SIZE then bytes else bytes[..PAGE_SIZE] }

  /** A run of `n` pages that holds `bytes`, followed by zeros. */
  function LoadRun(v: Image, space: Space, page: Page, bytes: seq<Byte>, n: nat): (Image, MapResult)
    decreases n
  {
    if n == 0 then (v, Mapped)
    else
      var (v1, r) := LoadPage(v, Leaf(space, page), Chunk(bytes));
      if r.Mapped? then LoadRun(v1, space, page + 1, bytes[|Chunk(bytes)|..], n - 1) else (v1, r)
  }

  /** First and last page of a segment, as recorded for the process. */
  datatype Range = Range(first: Page, last: Page)

  function BssFirst(s: Segment): Page { PagesUp(s.vaddr + s.fileSize) }

  /** The bss loop runs to the page of the end address, that page included. */
  function BssCount(s: Segment): nat {
    var last := (s.vaddr + s.memSize) / PAGE_SIZE;
    if s.memSize > s.fileSize && BssFirst(s) <= last then last - BssFirst(s) + 1 else 0
  }

  /** `None` is an error, on which the kernel stops. */
  function LoadSegment(v: Image, space: Space, s: Segment, file: Elf): (Image, Option<Range>)
    requires Loadable(s, file)
  {
    if Stops(s, file) then (v, None)
    else
      var first := s.vaddr / PAGE_SIZE;
      var (v1, r1) := LoadRun(v, space, first, CopiedBytes(s, file), FilePages(s));
      if !r1.Mapped? then (v1, None)
      else
        var (v2, r2) := LoadRun(v1, space, BssFirst(s), [], BssCount(s));
        if !r2.Mapped? then (v2, None) else (v2, Some(Recorded(s)))
  }

  /** The range recorded for the process. */
  function Recorded(s: Segment): Range
    requires s.vaddr + s.memSize > 0
  {
    Range(s.vaddr / PAGE_SIZE, (s.vaddr + s.memSize - 1) / PAGE_SIZE)
  }

  // ---------------------------------------------------------------------------
  // Which pages
  // ---------------------------------------------------------------------------

  lemma LoadPageMem(v: Image, l: Leaf, bytes: seq<Byte>)
    ensures var (v', r) := LoadPage(v, l, bytes);
            (v'.mem, r) == MapPage(v.mem, l)
  {
  }

  lemma {:induction false} LoadRunMem(v: Image, space: Space, page: Page, bytes: seq<Byte>, n: nat)
    ensures var (v', r) := LoadRun(v, space, page, bytes, n);
            (v'.mem, r) == MapPages(v.mem, space, page, n)
    decreases n
  {
    if n > 0 {
      hide LoadPage, MapPage;
      LoadPageMem(v, Leaf(space, page), Chunk(bytes));
      var (v1, r) := LoadPage(v, Leaf(space, page), Chunk(bytes));
      if r.Mapped? {
        LoadRunMem(v1, space, page + 1, bytes[|Chunk(bytes)|..], n - 1);
      }
    }
  }

  /** The number of pages that loading maps. */
  function SegmentPages(s: Segment): nat {
    if s.memSize > s.fileSize then (s.vaddr + s.memSize) / PAGE_SIZE + 1 - s.vaddr / PAGE_SIZE else FilePages(s)
  }

  lemma SegmentCounts(s: Segment)
    requires s.fileSize <= s.memSize && !Blank(s)
    ensures FilePages(s) + BssCount(s) == SegmentPages(s)
    ensures BssFirst(s) == s.vaddr / PAGE_SIZE + FilePages(s)
    ensures FilePages(s) * PAGE_SIZE >= s.fileSize
  {
    var x := s.vaddr + s.fileSize;
    assert PagesUp(x) == (x - 1) / PAGE_SIZE + 1;
    assert PagesUp(x) <= (s.vaddr + s.memSize) / PAGE_SIZE + 1;
    assert PagesUp(x) * PAGE_SIZE >= x && s.vaddr >= s.vaddr / PAGE_SIZE * PAGE_SIZE;
  }

  /** Exactly one page more than recorded is mapped when there is bss and it ends on
      a page boundary, and otherwise exactly the recorded range. */
  lemma ExtraPage(s: Segment)
    requires s.fileSize <= s.memSize && !Blank(s)
    ensures s.vaddr / PAGE_SIZE + SegmentPages(s) ==
            Recorded(s).last + 1 + if s.memSize > s.fileSize && (s.vaddr + s.memSize) % PAGE_SIZE == 0 then 1 else 0
  {
    var x := s.vaddr + s.memSize;
    assert (x - 1) / PAGE_SIZE + 1 == x / PAGE_SIZE + if x % PAGE_SIZE == 0 then 0 else 1;
  }

  // ---------------------------------------------------------------------------
  // Which bytes
  // ---------------------------------------------------------------------------

  /** The bytes, followed by zeros. */
  function Padded(bytes: seq<Byte>, i: nat): Byte { if i < |bytes| then bytes[i] else 0 }

  /** The run of pages at `page` holds `bytes` followed by zeros. */
  ghost predicate Holds(v: Image, space: Space, page: Page, count: nat, bytes: seq<Byte>) {
    && RunMapped(v.mem, space, page, count)
    && forall l, off :: InRun(l, space, page, count) && 0 <= off < PAGE_SIZE ==>
      Peek(v.mem, v.ram, l, off) == Padded(bytes, Position(page, l, off))
  }

  /** Where a byte of page `l` lies in a run of pages from `page` on. */
  function Position(page: Page, l: Leaf, off: nat): nat {
    if l.page < page then off else (l.page - page) * PAGE_SIZE + off
  }

  /** Every page of `v`, of any space, is still there with the same bytes. */
  ghost predicate Keeps(v: Image, v': Image) {
    && (forall l :: l in v.mem.pages ==> l in v'.mem.pages)
    && (forall l, off :: l in v.mem.pages ==> Peek(v'.mem, v'.ram, l, off) == Peek(v.mem, v.ram, l, off))
  }

  /** A page that gets mapped gets a frame that no page had. */
  lemma LoadPageMaps(v: Image, l: Leaf, bytes: seq<Byte>, o: Owners) returns (f: Frame, o': Owners)
    requires Owned(v.mem, o) && LoadPage(v, l, bytes).1.Mapped?
    ensures Take(v.mem.pool).1 == Some(f) && l !in v.mem.pages
    ensures LoadPage(v, l, bytes).0.mem.pages == v.mem.pages[l := f]
    ensures forall k :: k in v.mem.pages ==> v.mem.pages[k] != f
    ensures Owned(LoadPage(v, l, bytes).0.mem, o') && Fate(o, o', {})
  {
    var (pool, g) := Take(v.mem.pool);
    f := g.value;
    var o1 := TakeOwned(v.mem, o);
    TablesKeepPages(v.mem.(pool := pool), Path(l));
    o' := MapPageOwned(v.mem, l, o);
    LoadPageMem(v, l, bytes);
  }

  lemma LoadPageBytes(v: Image, l: Leaf, bytes: seq<Byte>, o: Owners) returns (o': Owners)
    requires Owned(v.mem, o) && |bytes| <= PAGE_SIZE && LoadPage(v, l, bytes).1.Mapped?
    ensures var v' := LoadPage(v, l, bytes).0;
            && Owned(v'.mem, o') && Fate(o, o', {}) && Keeps(v, v') && l !in v.mem.pages && l in v'.mem.pages
            && forall off :: 0 <= off < PAGE_SIZE ==> Peek(v'.mem, v'.ram, l, off) == Padded(bytes, off)
  {
    hide Owned, MapTo;
    var f;
    f, o' := LoadPageMaps(v, l, bytes, o);
  }

  lemma HoldsKept(v: Image, v': Image, space: Space, page: Page, count: nat, bytes: seq<Byte>)
    requires Holds(v, space, page, count, bytes) && Keeps(v, v')
    ensures Holds(v', space, page, count, bytes)
  {
  }

  lemma HoldsMore(v: Image, space: Space, page: Page, n: nat, bytes: seq<Byte>, c: nat)
    requires c == |Chunk(bytes)|
    requires Leaf(space, page) in v.mem.pages
    requires forall off :: 0 <= off < PAGE_SIZE ==> Peek(v.mem, v.ram, Leaf(space, page), off) == Padded(Chunk(bytes), off)
    requires Holds(v, space, page + 1, n, bytes[c..])
    ensures Holds(v, space, page, n + 1, bytes)
  {
    var k := n + 1;
    forall l, off | InRun(l, space, page, k) && 0 <= off < PAGE_SIZE
      ensures Peek(v.mem, v.ram, l, off) == Padded(bytes, Position(page, l, off))
    {
      if l.page > page {
        assert InRun(l, space, page + 1, n);
        assert Position(page + 1, l, off) + PAGE_SIZE == Position(page, l, off);
      }
    }
    forall l | InRun(l, space, page, k) ensures l == Leaf(space, page) || InRun(l, space, page + 1, n) {}
  }

  lemma {:induction false} LoadRunBytes(v: Image, space: Space, page: Page, bytes: seq<Byte>, n: nat, o: Owners)
      returns (o': Owners)
    requires Owned(v.mem, o) && LoadRun(v, space, page, bytes, n).1.Mapped?
    ensures var v' := LoadRun(v, space, page, bytes, n).0;
            Owned(v'.mem, o') && Fate(o, o', {}) && Keeps(v, v') && Holds(v', space, page, n, bytes)
    decreases n
  {
    hide Owned, LoadPage;
    o' := o;
    if n > 0 {
      var c := Chunk(bytes);
      var v1 := LoadPage(v, Leaf(space, page), c).0;
      var o1 := LoadPageBytes(v, Leaf(space, page), c, o);
      var rest := bytes[|c|..];
      o' := LoadRunBytes(v1, space, page + 1, rest, n - 1, o1);
      HoldsMore(LoadRun(v1, space, page + 1, rest, n - 1).0, space, page, n - 1, bytes, |c|);
    }
  }

  lemma HoldsBoth(v: Image, space: Space, page: Page, i: nat, j: nat, bytes: seq<Byte>)
    requires Holds(v, space, page, i, bytes) && Holds(v, space, page + i, j, []) && i * PAGE_SIZE >= |bytes|
    ensures Holds(v, space, page, i + j, bytes)
  {
    var n := i + j;
    forall l ensures InRun(l, space, page, n) <==> InRun(l, space, page, i) || InRun(l, space, page + i, j) {}
    forall l, off | InRun(l, space, page + i, j) && 0 <= off < PAGE_SIZE
      ensures Padded(bytes, Position(page, l, off)) == 0 == Padded([], Position(page + i, l, off))
    {
      assert Position(page, l, off) >= i * PAGE_SIZE;
    }
  }

  /** The segment is in memory: the copied bytes from the start of its first page on,
      followed by zeros to the end of the pages that were mapped for it. */
  ghost predicate Loaded(v: Image, space: Space, s: Segment, file: Elf)
    requires Loadable(s, file)
  {
    Holds(v, space, s.vaddr / PAGE_SIZE, SegmentPages(s), CopiedBytes(s, file))
  }

  lemma LoadSegmentMaps(v: Image, space: Space, s: Segment, file: Elf)
    requires Loadable(s, file) && LoadSegment(v, space, s, file).1.Some?
    ensures var (v', r) := LoadSegment(v, space, s, file);
            && !Stops(s, file) && r.value == Recorded(s)
            && Extends(v.mem, v'.mem, space, s.vaddr / PAGE_SIZE, SegmentPages(s))
  {
    hide LoadRun, MapPages, Extends, FilePages, BssFirst, BssCount, SegmentPages, Wraps;
    SegmentCounts(s);
    var first, bytes, n := s.vaddr / PAGE_SIZE, CopiedBytes(s, file), FilePages(s);
    var v1 := LoadRun(v, space, first, bytes, n).0;
    LoadRunMem(v, space, first, bytes, n);
    var j1 := MapPagesIs(v.mem, space, first, n);
    LoadRunMem(v1, space, first + n, [], BssCount(s));
    var j2 := MapPagesIs(v1.mem, space, first + n, BssCount(s));
    ExtendsTwice(v.mem, v1.mem, LoadSegment(v, space, s, file).0.mem, space, first, n, BssCount(s));
  }

  lemma CopiedLength(s: Segment, file: Elf)
    requires s.fileSize <= s.memSize && !Blank(s)
    ensures |CopiedBytes(s, file)| <= FilePages(s) * PAGE_SIZE
  {
    SegmentCounts(s);
    LastPageIs(s);
  }

  /** Loading one segment puts its image in memory, maps exactly its pages, none of
      which was mapped before, and leaves every other page and byte alone. */
  lemma LoadSegmentIs(v: Image, space: Space, s: Segment, file: Elf, o: Owners) returns (o': Owners)
    requires Owned(v.mem, o) && Loadable(s, file) && LoadSegment(v, space, s, file).1.Some?
    ensures var (v', r) := LoadSegment(v, space, s, file);
            && !Stops(s, file) && r.value == Recorded(s)
            && Owned(v'.mem, o') && Fate(o, o', {}) && Keeps(v, v') && Loaded(v', space, s, file)
            && Extends(v.mem, v'.mem, space, s.vaddr / PAGE_SIZE, SegmentPages(s))
  {
    hide Owned, LoadRun, Holds, Extends, FilePages, BssFirst, BssCount, SegmentPages, Wraps;
    LoadSegmentMaps(v, space, s, file);
    SegmentCounts(s);
    var first, bytes, n := s.vaddr / PAGE_SIZE, CopiedBytes(s, file), FilePages(s);
    var v1 := LoadRun(v, space, first, bytes, n).0;
    var o1 := LoadRunBytes(v, space, first, bytes, n, o);
    var v2 := LoadRun(v1, space, first + n, [], BssCount(s)).0;
    o' := LoadRunBytes(v1, space, first + n, [], BssCount(s), o1);
    HoldsKept(v1, v2, space, first, n, bytes);
    CopiedLength(s, file);
    HoldsBoth(v2, space, first, n, BssCount(s), bytes);
  }

  /** What the format promises: the bytes of the segment from its address on, and
      zeros up to its size in memory. */
  ghost predicate Right(v: Image, space: Space, s: Segment, file: Elf)
    requires Loadable(s, file)
  {
    forall i :: 0 <= i < s.memSize ==> ByteAt(v, space, s, i) == Wanted(s, file, i)
  }

  /** The byte in memory that is `i` bytes into the segment. */
  function ByteAt(v: Image, space: Space, s: Segment, i: nat): Byte {
    Peek(v.mem, v.ram, Leaf(space, (s.vaddr + i) / PAGE_SIZE), (s.vaddr + i) % PAGE_SIZE)
  }

  function Wanted(s: Segment, file: Elf, i: nat): Byte
    requires Loadable(s, file)
  {
    if i < s.fileSize then file.bytes[s.offset + i] else 0
  }

  /** The byte of the file that lies `i` bytes after the start of the segment, in it or not. */
  function Following(s: Segment, file: Elf, i: nat): Byte { FileByte(file, s.offset + i) }

  /** Where the last page begins in the run of pages. */
  function LastPage(s: Segment): nat { if FilePages(s) == 0 then 0 else (FilePages(s) - 1) * PAGE_SIZE }

  /** What is not copied is zero in the file too: the last bytes of the segment, as many
      as its address is past a page boundary; or, if the count wraps, those of them that
      lie before the last page, and what follows the segment in the file as far as its
      bss shares that page. */
  predicate Intact(s: Segment, file: Elf)
    requires Loadable(s, file)
  {
    var d := s.vaddr % PAGE_SIZE;
    if !Wraps(s) then forall i :: 0 <= i < s.fileSize <= d + i ==> Wanted(s, file, i) == 0
    else
      && (forall i :: 0 <= i < s.fileSize <= d + i < LastPage(s) ==> Wanted(s, file, i) == 0)
      && (forall i :: s.fileSize <= i < s.memSize && d + i < LastPage(s) + PAGE_SIZE ==> Following(s, file, i) == 0)
  }

  lemma LoadedByte(v: Image, space: Space, s: Segment, file: Elf, i: nat)
    requires Loadable(s, file) && !Blank(s) && Loaded(v, space, s, file) && i < s.memSize
    ensures ByteAt(v, space, s, i) == Padded(CopiedBytes(s, file), s.vaddr % PAGE_SIZE + i)
  {
    hide CopiedBytes, FilePages;
    var first, a := s.vaddr / PAGE_SIZE, s.vaddr + i;
    var l := Leaf(space, a / PAGE_SIZE);
    ExtraPage(s);
    assert first <= l.page <= Recorded(s).last;
    assert InRun(l, space, first, SegmentPages(s));
    assert Position(first, l, a % PAGE_SIZE) == a - first * PAGE_SIZE == s.vaddr % PAGE_SIZE + i;
  }

  /** A segment that ends on the page after the one where the copied bytes end. */
  lemma LastPageIs(s: Segment)
    requires !Blank(s)
    ensures Wraps(s) ==> s.fileSize < LastPage(s) < s.vaddr % PAGE_SIZE + s.fileSize <= LastPage(s) + PAGE_SIZE
  {
  }

  lemma CopiedByte(s: Segment, file: Elf, i: nat)
    requires Loadable(s, file) && !Blank(s) && i < s.memSize && s.vaddr % PAGE_SIZE == s.offset % PAGE_SIZE
    ensures var p := s.vaddr % PAGE_SIZE + i;
            Padded(CopiedBytes(s, file), p) ==
            if p < s.fileSize || (Wraps(s) && LastPage(s) <= p < LastPage(s) + PAGE_SIZE)
            then Following(s, file, i) else 0
  {
    hide FilePages, FileByte;
    var base, p := s.offset / PAGE_SIZE * PAGE_SIZE, s.vaddr % PAGE_SIZE + i;
    assert base + p == s.offset + i;
    LastPageIs(s);
  }

  /** A loaded segment, placed in its page as it is in the file, is right exactly if
      what is not copied is zero; so always on a page boundary. */
  lemma LoadedIsRight(v: Image, space: Space, s: Segment, file: Elf)
    requires Loadable(s, file) && !Blank(s) && Loaded(v, space, s, file)
    requires s.vaddr % PAGE_SIZE == s.offset % PAGE_SIZE
    ensures Right(v, space, s, file) <==> Intact(s, file)
    ensures s.vaddr % PAGE_SIZE == 0 ==> Right(v, space, s, file)
  {
    hide Loaded, ByteAt, FilePages, LastPage, CopiedBytes;
    var d := s.vaddr % PAGE_SIZE;
    LastPageIs(s);
    forall i: nat | i < s.memSize
      ensures ByteAt(v, space, s, i) ==
              if d + i < s.fileSize || (Wraps(s) && LastPage(s) <= d + i < LastPage(s) + PAGE_SIZE)
              then Following(s, file, i) else 0
    {
      LoadedByte(v, space, s, file, i);
      CopiedByte(s, file, i);
    }
  }

  // ---------------------------------------------------------------------------
  // The whole program
  // ---------------------------------------------------------------------------

  predicate AllLoadable(segs: seq<Segment>, file: Elf) {
    forall s <- segs :: Loadable(s, file)
  }

  /** All segments in turn, up to the first that fails. */
  function LoadElf(v: Image, space: Space, segs: seq<Segment>, file: Elf): (Image, Option<seq<Range>>)
    requires AllLoadable(segs, file)
    decreases |segs|
  {
    if segs == [] then (v, Some([]))
    else
      var (v1, r) := LoadSegment(v, space, segs[0], file);
      if r.None? then (v1, None)
      else
        var (v2, rs) := LoadElf(v1, space, segs[1..], file);
        (v2, if rs.None? then None else Some([r.value] + rs.value))
  }

  /** A program that loads has every segment in memory, and every page mapped before
      keeps its bytes. */
  lemma {:induction false} LoadElfBytes(v: Image, space: Space, segs: seq<Segment>, file: Elf, o: Owners)
      returns (o': Owners)
    requires Owned(v.mem, o) && AllLoadable(segs, file) && LoadElf(v, space, segs, file).1.Some?
    ensures var v' := LoadElf(v, space, segs, file).0;
            && Owned(v'.mem, o') && Fate(o, o', {}) && Keeps(v, v')
            && (forall s :: s in segs ==> Loaded(v', space, s, file))
    decreases |segs|
  {
    hide Owned, LoadSegment, Holds;
    o' := o;
    if segs != [] {
      var v1 := LoadSegment(v, space, segs[0], file).0;
      var o1 := LoadSegmentIs(v, space, segs[0], file, o);
      o' := LoadElfBytes(v1, space, segs[1..], file, o1);
      var v' := LoadElf(v, space, segs, file).0;
      HoldsKept(v1, v', space, segs[0].vaddr / PAGE_SIZE, SegmentPages(segs[0]), CopiedBytes(segs[0], file));
      assert segs == [segs[0]] + segs[1..];
    }
  }

  predicate InSegment(l: Leaf, space: Space, s: Segment) { InRun(l, space, s.vaddr / PAGE_SIZE, SegmentPages(s)) }

  ghost predicate InSegments(l: Leaf, space: Space, segs: seq<Segment>) {
    exists s :: s in segs && InSegment(l, space, s)
  }

  /** No page belongs to two segments. */
  ghost predicate Apart(space: Space, segs: seq<Segment>) {
    forall l, i, j :: 0 <= i < j < |segs| && InSegment(l, space, segs[i]) ==> !InSegment(l, space, segs[j])
  }

  /** `m'` has exactly the pages of `m`, unchanged, and those of the segments. */
  ghost predicate Adds(m: Mem, m': Mem, space: Space, segs: seq<Segment>) {
    && (forall l :: l in m'.pages <==> l in m.pages || InSegments(l, space, segs))
    && (forall l :: l in m.pages ==> !InSegments(l, space, segs) && l in m'.pages && m'.pages[l] == m.pages[l])
  }

  lemma AddsOneMore(m: Mem, m1: Mem, m': Mem, space: Space, segs: seq<Segment>)
    requires segs != [] && Extends(m, m1, space, segs[0].vaddr / PAGE_SIZE, SegmentPages(segs[0]))
    requires Adds(m1, m', space, segs[1..]) && Apart(space, segs[1..])
    ensures Adds(m, m', space, segs) && Apart(space, segs)
  {
    assert segs == [segs[0]] + segs[1..];
    forall l ensures InSegments(l, space, segs) <==> InSegment(l, space, segs[0]) || InSegments(l, space, segs[1..]) {}
    forall l, i, j | 0 <= i < j < |segs| && InSegment(l, space, segs[i]) ensures !InSegment(l, space, segs[j]) {
      if i == 0 {
        assert l in m1.pages && segs[j] in segs[1..];
      } else {
        assert segs[i] == segs[1..][i - 1] && segs[j] == segs[1..][j - 1];
      }
    }
  }

  /** Loading maps exactly the pages of the segments, none of them twice. */
  lemma {:induction false} LoadElfPages(v: Image, space: Space, segs: seq<Segment>, file: Elf)
    requires AllLoadable(segs, file) && LoadElf(v, space, segs, file).1.Some?
    ensures Adds(v.mem, LoadElf(v, space, segs, file).0.mem, space, segs) && Apart(space, segs)
    decreases |segs|
  {
    hide LoadSegment, Extends;
    if segs != [] {
      var v1 := LoadSegment(v, space, segs[0], file).0;
      LoadSegmentMaps(v, space, segs[0], file);
      LoadElfPages(v1, space, segs[1..], file);
      AddsOneMore(v.mem, v1.mem, LoadElf(v, space, segs, file).0.mem, space, segs);
    }
  }

  predicate Fits(s: Segment, file: Elf) { Loadable(s, file) && !Stops(s, file) }

  /** The ranges recorded for the process, in the order of the segments. */
  lemma {:induction false} LoadElfRanges(v: Image, space: Space, segs: seq<Segment>, file: Elf)
    requires AllLoadable(segs, file) && LoadElf(v, space, segs, file).1.Some?
    ensures var rs := LoadElf(v, space, segs, file).1.value;
            |rs| == |segs| && forall i :: 0 <= i < |segs| ==> Fits(segs[i], file) && rs[i] == Recorded(segs[i])
    decreases |segs|
  {
    hide LoadRun;
    if segs != [] {
      LoadElfRanges(LoadSegment(v, space, segs[0], file).0, space, segs[1..], file);
    }
  }

  // ---------------------------------------------------------------------------
  // When loading succeeds
  // ---------------------------------------------------------------------------

  lemma RunFreeSplit(m: Mem, m1: Mem, space: Space, page: Page, i: nat, j: nat)
    requires Extends(m, m1, space, page, i)
    ensures RunFree(m, space, page, i + j) <==> RunFree(m1, space, page + i, j)
  {
    var n := i + j;
    forall l ensures InRun(l, space, page, n) <==> InRun(l, space, page, i) || InRun(l, space, page + i, j) {}
  }

  lemma RunFreePart(m: Mem, space: Space, page: Page, i: nat, j: nat)
    requires RunFree(m, space, page, i + j)
    ensures RunFree(m, space, page, i)
  {
    var n := i + j;
    forall l | InRun(l, space, page, i) ensures InRun(l, space, page, n) {}
  }

  /** From the header alone: an empty segment at address zero stops the kernel, and with
      overflow checks one that, but for whole pages, does not fit into what its address
      leaves of a page. */
  lemma StopsIs(s: Segment, file: Elf)
    ensures Stops(s, file) <==>
              || (s.vaddr == 0 && s.fileSize == 0)
              || (file.checks && s.vaddr % 0x1000 + s.fileSize % 0x1000 > 0x1000)
  {
    if !Blank(s) {
      LastStart(s.vaddr, s.fileSize);
    }
  }

  lemma LastStart(a: nat, n: nat)
    requires a + n > 0
    ensures ((a + n - 1) / 0x1000 - a / 0x1000) * 0x1000 > n <==> a % 0x1000 + n % 0x1000 > 0x1000
  {
    var d, f, q := a % 0x1000, n % 0x1000, n / 0x1000;
    assert (a + n - 1) / 0x1000 == a / 0x1000 + q + (d + f - 1) / 0x1000;
  }

  /** With four frames a page in hand a segment is loaded exactly if its build does not
      stop on its sizes and none of its pages is mapped. */
  lemma SegmentLoads(v: Image, space: Space, s: Segment, file: Elf)
    requires Loadable(s, file) && Available(v.mem.pool) >= 4 * SegmentPages(s)
    ensures var (v', r) := LoadSegment(v, space, s, file);
            && (r.Some? <==> !Stops(s, file) && RunFree(v.mem, space, s.vaddr / PAGE_SIZE, SegmentPages(s)))
            && (r.Some? ==> Available(v.mem.pool) <= Available(v'.mem.pool) + 4 * SegmentPages(s))
  {
    hide LoadRun, MapPages, RunFree, Extends, FilePages, BssFirst, BssCount, SegmentPages, Wraps;
    if !Stops(s, file) {
      SegmentCounts(s);
      var first, bytes, n := s.vaddr / PAGE_SIZE, CopiedBytes(s, file), FilePages(s);
      var (v1, r1) := LoadRun(v, space, first, bytes, n);
      LoadRunMem(v, space, first, bytes, n);
      MapPagesSucceeds(v.mem, space, first, n);
      var j := MapPagesIs(v.mem, space, first, n);
      if r1.Mapped? {
        LoadRunMem(v1, space, first + n, [], BssCount(s));
        MapPagesSucceeds(v1.mem, space, first + n, BssCount(s));
        RunFreeSplit(v.mem, v1.mem, space, first, n, BssCount(s));
      } else if RunFree(v.mem, space, first, SegmentPages(s)) {
        RunFreePart(v.mem, space, first, n, BssCount(s));
      }
    }
  }

  function AllPages(segs: seq<Segment>): nat {
    if segs == [] then 0 else SegmentPages(segs[0]) + AllPages(segs[1..])
  }

  /** No page of any segment is mapped. */
  ghost predicate NoneMapped(m: Mem, space: Space, segs: seq<Segment>) {
    forall l :: l in m.pages ==> !InSegments(l, space, segs)
  }

  lemma SegmentsSplit(l: Leaf, space: Space, segs: seq<Segment>)
    requires segs != []
    ensures InSegments(l, space, segs) <==> InSegment(l, space, segs[0]) || InSegments(l, space, segs[1..])
  {
    assert segs == [segs[0]] + segs[1..];
  }

  lemma ApartSplit(space: Space, segs: seq<Segment>)
    requires segs != []
    ensures Apart(space, segs) <==>
              && Apart(space, segs[1..])
              && forall l :: InSegment(l, space, segs[0]) ==> !InSegments(l, space, segs[1..])
  {
    hide InSegment;
    if Apart(space, segs) {
      forall l, i, j | 0 <= i < j < |segs[1..]| && InSegment(l, space, segs[1..][i])
        ensures !InSegment(l, space, segs[1..][j])
      {
        assert segs[1..][i] == segs[i + 1] && segs[1..][j] == segs[j + 1];
      }
      forall l | InSegment(l, space, segs[0]) ensures !InSegments(l, space, segs[1..]) {
        forall j | 0 <= j < |segs[1..]| ensures !InSegment(l, space, segs[1..][j]) {
          assert segs[1..][j] == segs[j + 1];
        }
      }
    } else {
      var l, i, j :| 0 <= i < j < |segs| && InSegment(l, space, segs[i]) && InSegment(l, space, segs[j]);
      assert segs[j] == segs[1..][j - 1];
      if i > 0 {
        assert segs[i] == segs[1..][i - 1];
      }
    }
  }

  lemma NoneMappedSplit(m: Mem, m1: Mem, space: Space, segs: seq<Segment>)
    requires segs != [] && Extends(m, m1, space, segs[0].vaddr / PAGE_SIZE, SegmentPages(segs[0]))
    ensures NoneMapped(m1, space, segs[1..]) && Apart(space, segs[1..]) <==>
              NoneMapped(m, space, segs) && Apart(space, segs)
  {
    hide Apart, InSegments;
    ApartSplit(space, segs);
    forall l ensures InSegments(l, space, segs) <==> InSegment(l, space, segs[0]) || InSegments(l, space, segs[1..]) {
      SegmentsSplit(l, space, segs);
    }
  }

  lemma NoneMappedFirst(m: Mem, space: Space, segs: seq<Segment>)
    requires segs != [] && NoneMapped(m, space, segs)
    ensures RunFree(m, space, segs[0].vaddr / PAGE_SIZE, SegmentPages(segs[0]))
  {
    hide SegmentPages;
    forall l | InRun(l, space, segs[0].vaddr / PAGE_SIZE, SegmentPages(segs[0])) ensures l !in m.pages {
      SegmentsSplit(l, space, segs);
    }
  }

  /** And so for a whole program: it loads exactly if no segment stops the build, no page
      belongs to two segments, and none is mapped. */
  lemma {:induction false} ProgramLoads(v: Image, space: Space, segs: seq<Segment>, file: Elf)
    requires AllLoadable(segs, file) && Available(v.mem.pool) >= 4 * AllPages(segs)
    ensures LoadElf(v, space, segs, file).1.Some? <==>
              && (forall s <- segs :: !Stops(s, file))
              && Apart(space, segs) && NoneMapped(v.mem, space, segs)
    ensures LoadElf(v, space, segs, file).1.Some? ==>
              Available(v.mem.pool) <= Available(LoadElf(v, space, segs, file).0.mem.pool) + 4 * AllPages(segs)
    decreases |segs|
  {
    hide LoadSegment, Stops, SegmentPages, Apart, NoneMapped, Extends, RunFree;
    if segs == [] {
      EmptyIsApart(v.mem, space);
    } else {
      var s, rest := segs[0], segs[1..];
      assert segs == [s] + rest;
      var (v1, r) := LoadSegment(v, space, s, file);
      SegmentLoads(v, space, s, file);
      if r.Some? {
        LoadSegmentMaps(v, space, s, file);
        ProgramLoads(v1, space, rest, file);
        NoneMappedSplit(v.mem, v1.mem, space, segs);
      } else if NoneMapped(v.mem, space, segs) {
        NoneMappedFirst(v.mem, space, segs);
      }
    }
  }

  lemma EmptyIsApart(m: Mem, space: Space)
    ensures Apart(space, []) && NoneMapped(m, space, [])
  {
  }

  // ---------------------------------------------------------------------------
  // The loops, in place
  // ---------------------------------------------------------------------------

  class ElfLoader {
    const mapper: Mapper
    const alloc: FrameAllocator
    const memory: PhysicalMemory

    constructor (mapper: Mapper, alloc: FrameAllocator, memory: PhysicalMemory)
      ensures this.mapper == mapper && this.alloc == alloc && this.memory == memory
    {
      this.mapper, this.alloc, this.memory := mapper, alloc, memory;
    }

    ghost function View(): Image
      reads mapper, alloc, memory
    {
      Image(mapper.View(alloc), memory.bytes)
    }

    method PutPage(l: Leaf, bytes: seq<Byte>) returns (r: MapResult)
      modifies mapper, alloc, memory
      ensures (View(), r) == LoadPage(old(View()), l, bytes)
    {
      var f := alloc.AllocateFrame();
      if f.None? {
        return NoFrame;
      }
      memory.bytes := Store(memory.bytes, f.value, 0, bytes);
      r := mapper.Map(l, f.value, alloc);
      if r.Mapped? && |bytes| < PAGE_SIZE {
        memory.bytes := Store(memory.bytes, f.value, |bytes|, Zeros(PAGE_SIZE - |bytes|));
      }
    }

    method PutRun(space: Space, first: Page, bytes: seq<Byte>, n: nat) returns (r: MapResult)
      modifies mapper, alloc, memory
      ensures (View(), r) == LoadRun(old(View()), space, first, bytes, n)
    {
      var i, rest := 0, bytes;
      while i < n
        invariant 0 <= i <= n
        invariant LoadRun(View(), space, first + i, rest, n - i) == LoadRun(old(View()), space, first, bytes, n)
      {
        var c := Chunk(rest);
        r := PutPage(Leaf(space, first + i), c);
        if !r.Mapped? {
          return;
        }
        i, rest := i + 1, rest[|c|..];
      }
      r := Mapped;
    }

    method PutSegment(space: Space, s: Segment, file: Elf) returns (r: Option<Range>)
      requires Loadable(s, file)
      modifies mapper, alloc, memory
      ensures (View(), r) == LoadSegment(old(View()), space, s, file)
    {
      if Stops(s, file) {
        return None;
      }
      var r1 := PutRun(space, s.vaddr / PAGE_SIZE, CopiedBytes(s, file), FilePages(s));
      if !r1.Mapped? {
        return None;
      }
      var r2 := PutRun(space, BssFirst(s), [], BssCount(s));
      if !r2.Mapped? {
        return None;
      }
      r := Some(Recorded(s));
    }

    method Load(space: Space, segs: seq<Segment>, file: Elf) returns (rs: Option<seq<Range>>)
      requires AllLoadable(segs, file)
      modifies mapper, alloc, memory
      ensures (View(), rs) == LoadElf(old(View()), space, segs, file)
      decreases |segs|
    {
      if segs == [] {
        return Some([]);
      }
      var r := PutSegment(space, segs[0], file);
      if r.None? {
        return None;
      }
      var rest := Load(space, segs[1..], file);
      rs := if rest.None? then None else Some([r.value] + rest.value);
    }
  }
}
