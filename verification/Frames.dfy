/** The physical frame allocator: fresh frames from the memory map, and a stack
    of recycled ones. */
module Frames {
  import opened Basics

  type Frame = nat

  const PAGE_SIZE: nat := 4096

  /** The page that contains an address. */
  function PageOf(addr: nat): nat { addr / PAGE_SIZE }

  /** The number of whole pages that cover `n` bytes. */
  function PagesUp(n: nat): nat { (n + PAGE_SIZE - 1) / PAGE_SIZE }

  // ---------------------------------------------------------------------------
  // The frames of the memory map
  // ---------------------------------------------------------------------------

  datatype Region = Region(usable: bool, start: nat, pages: nat)

  function RegionFrames(r: Region, v: nat): seq<Frame>
    requires v <= r.pages
    decreases r.pages - v
  {
    if v == r.pages then [] else [(v * PAGE_SIZE + r.start) / PAGE_SIZE] + RegionFrames(r, v + 1)
  }

  /** The usable frames, region by region. */
  function FrameList(regions: seq<Region>): seq<Frame> {
    if regions == [] then []
    else (if regions[0].usable then RegionFrames(regions[0], 0) else []) + FrameList(regions[1..])
  }

  predicate InRegion(r: Region, f: Frame) {
    r.usable && r.start <= f * PAGE_SIZE < r.start + r.pages * PAGE_SIZE
  }

  /** What the boot loader promises: aligned regions that do not overlap. */
  ghost predicate GoodMap(regions: seq<Region>) {
    && (forall r <- regions :: r.start % PAGE_SIZE == 0)
    && (forall i, j, f :: 0 <= i < j < |regions| && InRegion(regions[i], f) ==> !InRegion(regions[j], f))
  }

  lemma {:induction false} RegionFramesAre(r: Region, v: nat)
    requires v <= r.pages && r.start % PAGE_SIZE == 0
    ensures forall f :: f in RegionFrames(r, v) <==> r.start / PAGE_SIZE + v <= f < r.start / PAGE_SIZE + r.pages
    ensures NoDup(RegionFrames(r, v))
    decreases r.pages - v
  {
    if v < r.pages {
      RegionFramesAre(r, v + 1);
      assert (v * PAGE_SIZE + r.start) / PAGE_SIZE == r.start / PAGE_SIZE + v;
      NoDupAppend([r.start / PAGE_SIZE + v], RegionFrames(r, v + 1));
    }
  }

  /** The allocator's supply is every usable frame once and no other. */
  lemma {:induction false} FrameListIsUsable(regions: seq<Region>)
    requires GoodMap(regions)
    ensures NoDup(FrameList(regions))
    ensures forall f :: f in FrameList(regions) <==> exists r :: r in regions && InRegion(r, f)
  {
    if regions != [] {
      var r, rest := regions[0], regions[1..];
      forall i, j, f | 0 <= i < j < |rest| && InRegion(rest[i], f) ensures !InRegion(rest[j], f) {
        assert InRegion(regions[i + 1], f);
      }
      FrameListIsUsable(rest);
      var here := if r.usable then RegionFrames(r, 0) else [];
      RegionFramesAre(r, 0);
      forall f ensures f in here <==> InRegion(r, f) {}
      forall f | f in here ensures f !in FrameList(rest) {
        forall q | q in rest ensures !InRegion(q, f) {
          var j :| 0 <= j < |rest| && rest[j] == q;
          assert q == regions[j + 1];
        }
      }
      NoDupAppend(here, FrameList(rest));
      assert regions == [r] + rest;
    }
  }

  // ---------------------------------------------------------------------------
  // The allocator
  // ---------------------------------------------------------------------------

  /** `used` counts every draw on the fresh supply, also one that finds it empty. */
  datatype Pool = Pool(unused: seq<Frame>, recycled: seq<Frame>, used: nat)

  function Take(a: Pool): (Pool, Option<Frame>) {
    if a.recycled != [] then
      (a.(recycled := a.recycled[..|a.recycled| - 1]), Some(a.recycled[|a.recycled| - 1]))
    else if a.unused != [] then (a.(unused := a.unused[1..], used := a.used + 1), Some(a.unused[0]))
    else (a.(used := a.used + 1), None)
  }

  function Give(a: Pool, f: Frame): Pool { a.(recycled := a.recycled + [f]) }

  /** The frame given back last is the next to be taken; any other draw is the next
      unused frame. */
  lemma GiveThenTake(a: Pool, f: Frame)
    ensures Take(Give(a, f)) == (a, Some(f))
    ensures a.recycled == [] && a.unused != [] ==> [Take(a).1.value] + Take(a).0.unused == a.unused
  {
    assert Give(a, f).recycled[..|a.recycled|] == a.recycled;
  }

  function Available(a: Pool): nat { |a.unused| + |a.recycled| }

  datatype PoolOp = Draw | Return(frame: Frame)

  function ApplyPool(a: Pool, op: PoolOp): Pool {
    match op
    case Draw => Take(a).0
    case Return(f) => Give(a, f)
  }

  function RunPool(a: Pool, ops: seq<PoolOp>): Pool {
    if ops == [] then a else ApplyPool(RunPool(a, ops[..|ops| - 1]), ops[|ops| - 1])
  }

  /** Frames handed out less frames returned. */
  function Out(a: Pool, ops: seq<PoolOp>): int {
    if ops == [] then 0
    else
      var before, op := ops[..|ops| - 1], ops[|ops| - 1];
      Out(a, before) + if op.Return? then -1 else if Take(RunPool(a, before)).1.Some? then 1 else 0
  }

  /** Draws that got nothing. */
  function Misses(a: Pool, ops: seq<PoolOp>): nat {
    if ops == [] then 0
    else
      var before, op := ops[..|ops| - 1], ops[|ops| - 1];
      Misses(a, before) + if op.Draw? && Take(RunPool(a, before)).1.None? then 1 else 0
  }

  /** Over any history the difference of the two counters of the allocator, shown as the
      memory in use, is what is out and has not come back, and the draws that got nothing
      besides; what is left to hand out makes up the rest. */
  lemma {:induction false} PoolCounts(a: Pool, ops: seq<PoolOp>)
    ensures var b := RunPool(a, ops);
            && b.used - |b.recycled| == a.used - |a.recycled| + Out(a, ops) + Misses(a, ops)
            && Available(b) == Available(a) - Out(a, ops)
    decreases |ops|
  {
    if ops != [] {
      PoolCounts(a, ops[..|ops| - 1]);
    }
  }

  class FrameAllocator {
    var used: nat
    var frames: seq<Frame>
    var recycled: seq<Frame>

    function Value(): Pool
      reads this
    {
      Pool(frames, recycled, used)
    }

    constructor (regions: seq<Region>)
      ensures Value() == Pool(FrameList(regions), [], 0)
    {
      used, frames, recycled := 0, FrameList(regions), [];
    }

    method AllocateFrame() returns (f: Option<Frame>)
      modifies this
      ensures (Value(), f) == Take(old(Value()))
    {
      if |recycled| > 0 {
        f := Some(recycled[|recycled| - 1]);
        recycled := recycled[..|recycled| - 1];
      } else {
        used := used + 1;
        if |frames| > 0 {
          f := Some(frames[0]);
          frames := frames[1..];
        } else {
          f := None;
        }
      }
    }

    method DeallocateFrame(f: Frame)
      modifies this
      ensures Value() == Give(old(Value()), f)
    {
      recycled := recycled + [f];
    }
  }
}
