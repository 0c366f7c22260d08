/** The contents of physical memory, by frame and offset, and copying between
    mapped pages. */
module Memory {
  import opened Frames
  import opened Paging

  type Byte = bv8
  type Ram = (Frame, nat) -> Byte

  /** Stores `bytes` in frame `f` from offset `from` on. */
  function Store(ram: Ram, f: Frame, from: nat, bytes: seq<Byte>): Ram {
    (x: Frame, off: nat) => if x == f && from <= off < from + |bytes| then bytes[off - from] else ram(x, off)
  }

  /** The contents of frame `from`, copied to frame `to`. */
  function CopyFrame(ram: Ram, from: Frame, to: Frame): Ram {
    (x: Frame, off: nat) => if x == to then ram(from, off) else ram(x, off)
  }

  /** The byte behind a page; zero stands for the fault on one that is not mapped. */
  function Peek(m: Mem, ram: Ram, l: Leaf, off: nat): Byte {
    if l in m.pages then ram(m.pages[l], off) else 0
  }

  /** Copies `count` pages of a space, page by page, as far as they are mapped. */
  function CopyPages(m: Mem, ram: Ram, space: Space, src: Page, dst: Page, count: nat): Ram
    decreases count
  {
    if count == 0 || Leaf(space, src) !in m.pages || Leaf(space, dst) !in m.pages then ram
    else
      var ram1 := CopyFrame(ram, m.pages[Leaf(space, src)], m.pages[Leaf(space, dst)]);
      CopyPages(m, ram1, space, src + 1, dst + 1, count - 1)
  }

  /** No frame backs two pages. */
  ghost predicate Injective(m: Mem) {
    forall l, k :: l in m.pages && k in m.pages && m.pages[l] == m.pages[k] ==> l == k
  }

  /** The page that lies in the run at `src` where `l` lies in the run at `dst`. */
  function Twin(l: Leaf, dst: Page, src: Page): Leaf {
    if l.page >= dst then Leaf(l.space, l.page - dst + src) else l
  }

  lemma CopyFrameIs(m: Mem, ram: Ram, from: Leaf, to: Leaf)
    requires from in m.pages && to in m.pages && Injective(m)
    ensures var ram1 := CopyFrame(ram, m.pages[from], m.pages[to]);
            && (forall off :: Peek(m, ram1, to, off) == Peek(m, ram, from, off))
            && (forall l, off :: l != to ==> Peek(m, ram1, l, off) == Peek(m, ram, l, off))
  {
  }

  /** `ram'` is `ram` with the bytes of the run at `src` at the run at `dst` too. */
  ghost predicate Copied(m: Mem, ram: Ram, ram': Ram, space: Space, src: Page, dst: Page, count: nat) {
    && (forall l, off :: InRun(l, space, dst, count) ==>
          Peek(m, ram', l, off) == Peek(m, ram, Twin(l, dst, src), off))
    && (forall l, off :: !InRun(l, space, dst, count) ==> Peek(m, ram', l, off) == Peek(m, ram, l, off))
  }

  lemma CopiedOneMore(m: Mem, ram: Ram, ram1: Ram, ram': Ram, space: Space, src: Page, dst: Page, n: nat)
    requires dst + n < src || src + n < dst
    requires forall l, off :: Peek(m, ram1, l, off) == Peek(m, ram, if l == Leaf(space, dst) then Leaf(space, src) else l, off)
    requires Copied(m, ram1, ram', space, src + 1, dst + 1, n)
    ensures Copied(m, ram, ram', space, src, dst, n + 1)
  {
    hide Peek;
    var to, count := Leaf(space, dst), n + 1;
    forall l ensures InRun(l, space, dst, count) <==> l == to || InRun(l, space, dst + 1, n) {}
    forall l, off | InRun(l, space, dst, count)
      ensures Peek(m, ram', l, off) == Peek(m, ram, Twin(l, dst, src), off)
    {
      if l != to {
        assert Twin(l, dst + 1, src + 1) == Twin(l, dst, src) != to;
      }
    }
  }

  lemma CopiedNone(m: Mem, ram: Ram, space: Space, src: Page, dst: Page)
    ensures Copied(m, ram, ram, space, src, dst, 0)
  {
  }

  lemma RunMappedRest(m: Mem, space: Space, page: Page, count: nat)
    requires count > 0 && RunMapped(m, space, page, count)
    ensures Leaf(space, page) in m.pages && RunMapped(m, space, page + 1, count - 1)
  {
    assert InRun(Leaf(space, page), space, page, count);
    forall l | InRun(l, space, page + 1, count - 1) ensures InRun(l, space, page, count) {}
  }

  /** Copying runs that do not overlap: the target pages get the bytes of the
      source pages and no other page, of any space, changes. */
  lemma {:induction false} CopyPagesIs(m: Mem, ram: Ram, space: Space, src: Page, dst: Page, count: nat)
    requires RunMapped(m, space, src, count) && RunMapped(m, space, dst, count) && Injective(m)
    requires dst + count <= src || src + count <= dst
    ensures Copied(m, ram, CopyPages(m, ram, space, src, dst, count), space, src, dst, count)
    decreases count
  {
    hide Copied, Peek, CopyFrame, RunMapped, Injective;
    if count == 0 {
      CopiedNone(m, ram, space, src, dst);
    } else {
      RunMappedRest(m, space, src, count);
      RunMappedRest(m, space, dst, count);
      var from, to := Leaf(space, src), Leaf(space, dst);
      var ram1 := CopyFrame(ram, m.pages[from], m.pages[to]);
      CopyFrameIs(m, ram, from, to);
      CopyPagesIs(m, ram1, space, src + 1, dst + 1, count - 1);
      CopiedOneMore(m, ram, ram1, CopyPages(m, ram1, space, src + 1, dst + 1, count - 1), space, src, dst, count - 1);
    }
  }

  class PhysicalMemory {
    var bytes: Ram

    method ClonePages(space: Space, src: Page, dst: Page, count: nat, mapper: Mapper, ghost alloc: FrameAllocator)
      requires RunMapped(mapper.View(alloc), space, src, count) && RunMapped(mapper.View(alloc), space, dst, count)
      modifies this
      ensures bytes == CopyPages(mapper.View(alloc), old(bytes), space, src, dst, count)
    {
      var i := 0;
      ghost var m := mapper.View(alloc);
      while i < count
        invariant 0 <= i <= count && m == mapper.View(alloc)
        invariant CopyPages(m, bytes, space, src + i, dst + i, count - i) == CopyPages(m, old(bytes), space, src, dst, count)
      {
        assert InRun(Leaf(space, src + i), space, src, count) && InRun(Leaf(space, dst + i), space, dst, count);
        bytes := CopyFrame(bytes, mapper.pages[Leaf(space, src + i)], mapper.pages[Leaf(space, dst + i)]);
        i := i + 1;
      }
    }
  }
}
