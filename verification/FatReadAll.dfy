/** Reads that stay in one stretch of sectors, and reading a whole file by such reads. */
module FatReadAll {
  import opened Fat16
  import opened FatReadingOn

  /** Byte `p` of the stretch of sectors from `at` on. */
  function Cell(v: Volume, at: nat, p: nat): Octet
    requires ValidVolume(v)
  {
    if at + p / SECTOR < |v.sectors| then v.sectors[at + p / SECTOR][p % SECTOR] else 0
  }

  /** `bytes` are those of the stretch from byte `from` on. */
  ghost predicate Cells(v: Volume, at: nat, from: nat, bytes: seq<Octet>)
    requires ValidVolume(v)
  {
    forall i :: 0 <= i < |bytes| ==> bytes[i] == Cell(v, at, from + i)
  }

  /** How many sectors are read for `n` bytes from byte `skip` on. */
  function Span(skip: nat, n: nat): nat { if n == 0 then 1 else (skip + n - 1) / SECTOR + 1 }

  lemma SpanNext(skip: nat, n: nat)
    requires skip < SECTOR && skip + n > SECTOR
    ensures Span(skip, n) == 1 + Span(0, n - (SECTOR - skip))
  {
  }

  lemma SpanOne(skip: nat, n: nat)
    requires skip < SECTOR && skip + n <= SECTOR
    ensures Span(skip, n) == 1
  {
  }

  lemma CellShift(v: Volume, at: nat, p: nat)
    requires ValidVolume(v)
    ensures Cell(v, at, SECTOR + p) == Cell(v, at + 1, p)
  {
    assert (SECTOR + p) / SECTOR == 1 + p / SECTOR && (SECTOR + p) % SECTOR == p % SECTOR;
  }

  lemma CellsJoin(v: Volume, at: nat, skip: nat, a: seq<Octet>, b: seq<Octet>)
    requires ValidVolume(v) && skip + |a| == SECTOR && Cells(v, at, skip, a) && Cells(v, at + 1, 0, b)
    ensures Cells(v, at, skip, a + b)
  {
    hide Cell;
    forall i | 0 <= i < |a + b| ensures (a + b)[i] == Cell(v, at, skip + i) {
      if i >= |a| {
        CellShift(v, at, i - |a|);
        assert skip + i == SECTOR + (i - |a|);
      }
    }
  }

  lemma CellsHere(v: Volume, at: nat, skip: nat, n: nat)
    requires ValidVolume(v) && at < |v.sectors| && skip + n <= SECTOR
    ensures |v.sectors[at]| == SECTOR && Cells(v, at, skip, v.sectors[at][skip..skip + n])
  {
  }

  /** A read stays in its stretch if it starts past the cluster already or ends in it. */
  predicate Stays(spc: nat, s: nat, span: nat) { spc <= s || s + span <= spc }

  /** The outcome of such a read: all bytes from there on, or an error exactly if a
      sector on the way is not in the partition. */
  ghost predicate ReadsOn(v: Volume, size: nat, h: Handle, at: nat, skip: nat, want: nat, r: ReadResult)
    requires ValidVolume(v) && h.offset <= size
  {
    var n := Min(want, size - h.offset);
    if at + Span(skip, n) <= |v.sectors|
    then
      && r.outcome.Done? && |r.bytes| == n && r.handle == Handle(h.offset + n, h.cluster)
      && Cells(v, at, skip, r.bytes)
    else r.outcome.Err?
  }

  lemma BlockMissing(v: Volume, size: nat, h: Handle, s: nat, skip: nat, want: nat, at: nat)
    requires ValidVolume(v) && skip < SECTOR && h.offset <= size
    requires FirstSector(v, h.cluster).Done? && FirstSector(v, h.cluster).value + s == at >= |v.sectors|
    ensures ReadFrom(v, size, h, s, skip, want).outcome.Err?
  {
    hide FirstSector, NextCluster;
  }

  lemma {:induction false} ReadStretch(v: Volume, size: nat, h: Handle, s: nat, skip: nat, want: nat, at: nat)
    requires ValidVolume(v) && skip < SECTOR && h.offset <= size
    requires FirstSector(v, h.cluster).Done? && FirstSector(v, h.cluster).value + s == at
    requires Stays(v.sectorsPerCluster, s, Span(skip, Min(want, size - h.offset)))
    ensures ReadsOn(v, size, h, at, skip, want, ReadFrom(v, size, h, s, skip, want))
    decreases want
  {
    hide FirstSector, Cells, ReadFrom, Span;
    var all, n := Min(want, size - h.offset), SECTOR - skip;
    if all > n {
      SpanNext(skip, all);
    } else {
      SpanOne(skip, all);
    }
    SpanPositive(0, all - n);
    if at >= |v.sectors| {
      BlockMissing(v, size, h, s, skip, want, at);
    } else if all <= n {
      CellsHere(v, at, skip, all);
      ReadUnfold(v, size, h, s, skip, want, at, 0, v.sectors[at][skip..skip + all]);
    } else {
      CellsHere(v, at, skip, n);
      var a, h1 := v.sectors[at][skip..skip + n], Handle(h.offset + n, h.cluster);
      ReadUnfold(v, size, h, s, skip, want, at, h.cluster, a);
      ReadStretch(v, size, h1, s + 1, 0, want - n, at + 1);
      var r1 := ReadFrom(v, size, h1, s + 1, 0, want - n);
      if at + Span(skip, all) <= |v.sectors| {
        CellsJoin(v, at, skip, a, r1.bytes);
      }
    }
  }

  lemma SpanPositive(skip: nat, n: int)
    ensures n >= 0 ==> Span(skip, n) >= 1
  {
  }

  // ---------------------------------------------------------------------------
  // The bytes of a second read
  // ---------------------------------------------------------------------------

  /** After a first read of `w` bytes that got to a later cluster, the second call reads
      the stretch that lies `w` bytes after the start of the cluster of the last byte
      read, whatever the table says: its bytes, or an error if it leaves the partition. */
  lemma SecondReadBytes(v: Volume, size: nat, chain: seq<Cluster>, w: nat, j: nat, want: nat) returns (e: nat)
    requires FileOn(v, chain, size) && 0 < w < size && 0 < j < |chain| && LiesIn(v, j, w / SECTOR)
    ensures e == if w == j * v.sectorsPerCluster * SECTOR then j - 1 else j
    ensures FirstSector(v, chain[e]).Done?
    ensures var h := ReadOnce(v, size, Handle(0, chain[0]), w).handle;
            && h == Handle(w, chain[e])
            && ReadsOn(v, size, h, FirstSector(v, chain[e]).value + w / SECTOR, w % SECTOR, want, ReadOnce(v, size, h, want))
  {
    hide FileSectors, IsChain, ReadFrom, FirstSector, ReadsOn, Span;
    e := AfterFirst(v, size, chain, w);
    ClusterBefore(v, e, j, w);
    SectorOfCluster(v, chain, e, 0);
    FirstSectorIs(v, chain[e]);
    LaterStarts(0, j, v.sectorsPerCluster);
    var at := FirstSector(v, chain[e]).value + w / SECTOR;
    ReadStretch(v, size, Handle(w, chain[e]), w / SECTOR, w % SECTOR, want, at);
  }

  // ---------------------------------------------------------------------------
  // Reading everything
  // ---------------------------------------------------------------------------

  /** `out` is the stretch from byte `from` up to byte `size`, followed only by zeros. */
  ghost predicate CellsThenZeros(v: Volume, at: nat, size: nat, from: nat, out: seq<Octet>)
    requires ValidVolume(v)
  {
    && from + |out| >= size
    && forall j :: 0 <= j < |out| ==> out[j] == if from + j < size then Cell(v, at, from + j) else 0
  }

  lemma UnitThenRest(v: Volume, at: nat, size: nat, from: nat, bytes: seq<Octet>, rest: seq<Octet>)
    requires ValidVolume(v) && Cells(v, at, from, bytes) && |bytes| == Min(UNIT, size - from) && from <= size
    requires CellsThenZeros(v, at, size, from + |bytes|, rest)
    ensures CellsThenZeros(v, at, size, from, bytes + Zeros(UNIT - |bytes|) + rest)
  {
    hide Cell;
    var out := bytes + Zeros(UNIT - |bytes|) + rest;
    forall j | 0 <= j < |out| ensures out[j] == if from + j < size then Cell(v, at, from + j) else 0 {
      if j >= UNIT {
        var i := j - UNIT;
        assert out[j] == rest[i];
        if |bytes| == UNIT {
          assert from + j == from + |bytes| + i;
        }
      }
    }
  }

  lemma CellsFrom(v: Volume, first: nat, k: nat, bytes: seq<Octet>)
    requires ValidVolume(v) && Cells(v, first + k, 0, bytes)
    ensures Cells(v, first, k * SECTOR, bytes)
  {
    forall i | 0 <= i < |bytes| ensures bytes[i] == Cell(v, first, k * SECTOR + i) {
      assert (k * SECTOR + i) / SECTOR == k + i / SECTOR && (k * SECTOR + i) % SECTOR == i % SECTOR;
      assert bytes[i] == Cell(v, first + k, i);
    }
  }

  /** It ends well exactly when the sector where the file ends is in the partition,
      and then appends the stretch from where the handle stands, and zeros. */
  ghost predicate ReadsAll(v: Volume, size: nat, h: Handle, first: nat)
    requires ValidVolume(v) && h.offset <= size
  {
    var (n, out) := ReadAllFrom(v, size, h);
    if first + size / SECTOR < |v.sectors|
    then n == Done(size - h.offset) && CellsThenZeros(v, first, size, h.offset, out)
    else n == Err
  }

  lemma UnitStays(offset: nat, size: nat, spc: nat) returns (k: nat)
    requires offset <= size && (offset % UNIT == 0 || offset == size)
    requires spc % 2 == 0 || spc <= offset / SECTOR || offset == size
    ensures k == offset / SECTOR && Stays(spc, k, Span(offset % SECTOR, Min(UNIT, size - offset)))
    ensures offset < size ==> offset == k * SECTOR
    ensures k + Span(offset % SECTOR, Min(UNIT, size - offset)) <= size / SECTOR + 1
    ensures offset == size ==> Span(offset % SECTOR, Min(UNIT, size - offset)) == 1
  {
    k := offset / SECTOR;
    var n := Min(UNIT, size - offset);
    if offset < size {
      assert offset == UNIT * (offset / UNIT);
      assert k == 2 * (offset / UNIT) && offset == k * SECTOR;
      assert k + (n - 1) / SECTOR == (offset + n - 1) / SECTOR;
    }
  }

  lemma ReadsAllStep(v: Volume, size: nat, h: Handle, first: nat, r: ReadResult)
    requires ValidVolume(v) && h.offset < size && r == ReadOnce(v, size, h, UNIT)
    requires r.outcome.Done? && |r.bytes| == Min(UNIT, size - h.offset)
    requires Cells(v, first, h.offset, r.bytes) && ReadsAll(v, size, r.handle, first)
    ensures ReadsAll(v, size, h, first)
  {
    hide Cells, ReadFrom, CellsThenZeros;
    if first + size / SECTOR < |v.sectors| {
      UnitThenRest(v, first, size, h.offset, r.bytes, ReadAllFrom(v, size, r.handle).1);
    }
  }

  lemma ReadsAllAtEnd(v: Volume, size: nat, h: Handle, first: nat, r: ReadResult)
    requires ValidVolume(v) && h.offset == size && r == ReadOnce(v, size, h, UNIT)
    requires if first + size / SECTOR < |v.sectors| then r.outcome.Done? && r.bytes == [] else r.outcome.Err?
    ensures ReadsAll(v, size, h, first)
  {
    hide ReadFrom;
  }

  /** Units that never meet the end of a cluster are all read from one stretch. */
  lemma {:induction false} ReadAllStretch(v: Volume, size: nat, h: Handle, first: nat)
    requires ValidVolume(v) && FirstSector(v, h.cluster) == Done(first)
    requires h.offset <= size && (h.offset % UNIT == 0 || h.offset == size)
    requires v.sectorsPerCluster % 2 == 0 || v.sectorsPerCluster <= h.offset / SECTOR || h.offset == size
    ensures ReadsAll(v, size, h, first)
    decreases size - h.offset
  {
    hide ReadsAll, Cells, ReadFrom, FirstSector, Span;
    var k := UnitStays(h.offset, size, v.sectorsPerCluster);
    ReadStretch(v, size, h, k, h.offset % SECTOR, UNIT, first + k);
    var r := ReadOnce(v, size, h, UNIT);
    if h.offset == size {
      ReadsAllAtEnd(v, size, h, first, r);
    } else if r.outcome.Err? {
      StopsThere(v, size, h, first, r);
    } else {
      CellsFrom(v, first, k, r.bytes);
      ReadAllStretch(v, size, r.handle, first);
      ReadsAllStep(v, size, h, first, r);
    }
  }

  lemma StopsThere(v: Volume, size: nat, h: Handle, first: nat, r: ReadResult)
    requires ValidVolume(v) && h.offset <= size && r == ReadOnce(v, size, h, UNIT) && r.outcome.Err?
    requires first + size / SECTOR >= |v.sectors|
    ensures ReadsAll(v, size, h, first)
  {
    hide ReadFrom;
  }

  /** The whole file was read: its size returned, its bytes appended, then only zeros. */
  ghost predicate RightFile(v: Volume, size: nat, chain: seq<Cluster>)
    requires ValidVolume(v) && chain != []
  {
    var (n, out) := ReadAllFrom(v, size, Handle(0, chain[0]));
    n == Done(size) && FileThenZeros(v, FileSectors(v, chain), size, 0, out)
  }

  /** From byte `from` on the file has the bytes of the stretch at `at`. */
  ghost predicate SameBytes(v: Volume, secs: seq<nat>, at: nat, from: nat, size: nat)
    requires ValidVolume(v)
  {
    forall i :: from <= i < size ==> ByteOf(v, secs, i) == Cell(v, at, i)
  }

  lemma SameOutput(v: Volume, secs: seq<nat>, at: nat, size: nat, out: seq<Octet>)
    requires ValidVolume(v) && CellsThenZeros(v, at, size, 0, out)
    ensures FileThenZeros(v, secs, size, 0, out) <==> SameBytes(v, secs, at, 0, size)
  {
    hide Cell, ByteOf;
    if FileThenZeros(v, secs, size, 0, out) {
      forall i | 0 <= i < size ensures ByteOf(v, secs, i) == Cell(v, at, i) {
        assert out[i] == ByteOf(v, secs, 0 + i) && out[i] == Cell(v, at, 0 + i);
      }
    }
  }

  /** Reading everything with an even number of sectors per cluster, whatever the chain:
      the clusters after the first are never looked up.  The file is read exactly if the
      sector where it would end, counted from its first cluster, is in the partition,
      and its bytes are those of the sectors that follow its first cluster on the disk. */
  lemma ReadAllIs(v: Volume, size: nat, chain: seq<Cluster>)
    requires FileOn(v, chain, size) && v.sectorsPerCluster % 2 == 0
    ensures FirstSector(v, chain[0]).Done?
    ensures ReadsAll(v, size, Handle(0, chain[0]), FirstSector(v, chain[0]).value)
    ensures RightFile(v, size, chain) <==>
              && FirstSector(v, chain[0]).value + size / SECTOR < |v.sectors|
              && SameBytes(v, FileSectors(v, chain), FirstSector(v, chain[0]).value, 0, size)
  {
    hide FirstSector, FileSectors, ReadAllFrom, SameBytes, CellsThenZeros, FileThenZeros, IsChain;
    SectorOfCluster(v, chain, 0, 0);
    FirstSectorIs(v, chain[0]);
    var first := FirstSector(v, chain[0]).value;
    ReadAllStretch(v, size, Handle(0, chain[0]), first);
    if first + size / SECTOR < |v.sectors| {
      SameOutput(v, FileSectors(v, chain), first, size, ReadAllFrom(v, size, Handle(0, chain[0])).1);
    }
  }

  /** So a file on clusters that follow one another is read, unless it fills the
      partition. */
  lemma ConsecutiveFile(v: Volume, size: nat, chain: seq<Cluster>)
    requires FileOn(v, chain, size) && Consecutive(chain) && v.sectorsPerCluster % 2 == 0
    ensures FirstSector(v, chain[0]).Done?
    ensures RightFile(v, size, chain) <==> FirstSector(v, chain[0]).value + size / SECTOR < |v.sectors|
  {
    hide FirstSector, FileSectors, IsChain, RightFile, ReadsAll;
    ReadAllIs(v, size, chain);
    var secs, first := FileSectors(v, chain), FirstSector(v, chain[0]).value;
    forall i | 0 <= i < size ensures ByteOf(v, secs, i) == Cell(v, first, i) {
      ConsecutiveSectors(v, chain, i / SECTOR);
    }
  }

  /** An empty file, which has no cluster: with overflow checks reading it stops the
      kernel, without them it works if the sector two clusters before the data exists. */
  lemma EmptyFileIs(v: Volume)
    requires ValidVolume(v)
    ensures ReadAllFrom(v, 0, Handle(0, 0)).0 ==
            if v.checks then Stop
            else if (FirstDataSector(v) - 2 * v.sectorsPerCluster) % WORD32 < |v.sectors| then Done(0) else Err
  {
    hide FirstSector;
    WrappedSector(v);
    if !v.checks {
      ReadAllStretch(v, 0, Handle(0, 0), FirstSector(v, 0).value);
    }
  }

  // ---------------------------------------------------------------------------
  // Clusters of one sector
  // ---------------------------------------------------------------------------

  /** The cluster in which the first unit ends. */
  function UnitCluster(size: nat): nat { if size <= SECTOR then 0 else 1 }

  lemma FirstUnit(v: Volume, size: nat, chain: seq<Cluster>)
    requires FileOn(v, chain, size) && v.sectorsPerCluster == 1
    ensures UnitCluster(size) < |chain|
    ensures var r := ReadOnce(v, size, Handle(0, chain[0]), UNIT);
            && r.outcome.Done? && |r.bytes| == Min(UNIT, size) && AreBytes(v, FileSectors(v, chain), 0, r.bytes)
            && r.handle == Handle(|r.bytes|, chain[UnitCluster(size)])
  {
    hide IsChain, FileSectors, ReadFrom, FirstSector, ReadsOn;
    FreshRead(v, size, chain, UNIT);
    SectorOfCluster(v, chain, 0, 0);
    FirstSectorIs(v, chain[0]);
    if size == 0 {
      ReadStretch(v, size, Handle(0, chain[0]), 0, 0, UNIT, FirstSector(v, chain[0]).value);
      StandsStill(v, size, Handle(0, chain[0]));
    } else {
      assert FileSectors(v, chain)[0..] == FileSectors(v, chain);
      var e := HandleAfter(v, size, Handle(0, chain[0]), chain, 0, FileSectors(v, chain), 0, UNIT);
      assert e == (Min(UNIT, size) - 1) / SECTOR;
    }
  }

  lemma StandsStill(v: Volume, size: nat, h: Handle)
    requires ValidVolume(v) && h.offset == size && ReadOnce(v, size, h, UNIT).outcome.Done?
    ensures ReadOnce(v, size, h, UNIT).handle == h
  {
    hide FirstSector, NextCluster;
  }

  /** The output: the first unit of the file, then the stretch at `at`. */
  lemma OutputOfOne(v: Volume, secs: seq<nat>, at: nat, size: nat, bytes: seq<Octet>, rest: seq<Octet>)
    requires ValidVolume(v) && |bytes| == Min(UNIT, size) && AreBytes(v, secs, 0, bytes)
    requires CellsThenZeros(v, at, size, |bytes|, rest)
    ensures FileThenZeros(v, secs, size, 0, bytes + Zeros(UNIT - |bytes|) + rest) <==> SameBytes(v, secs, at, UNIT, size)
  {
    hide Cell, ByteOf;
    var out := bytes + Zeros(UNIT - |bytes|) + rest;
    forall j | 0 <= j < UNIT && j < |out| ensures out[j] == if j < size then ByteOf(v, secs, j) else 0 {
      assert j < |bytes| ==> bytes[j] == ByteOf(v, secs, 0 + j);
    }
    forall j | UNIT <= j < |out| ensures out[j] == if j < size then Cell(v, at, j) else 0 {
      assert out[j] == rest[j - UNIT];
      assert |bytes| == UNIT ==> rest[j - UNIT] == if |bytes| + (j - UNIT) < size then Cell(v, at, |bytes| + (j - UNIT)) else 0;
    }
    if FileThenZeros(v, secs, size, 0, out) {
      forall i | UNIT <= i < size ensures ByteOf(v, secs, i) == Cell(v, at, i) {
        assert out[i] == ByteOf(v, secs, 0 + i);
      }
    }
  }

  lemma UnitThenStretch(v: Volume, size: nat, chain: seq<Cluster>, at: nat, r: ReadResult)
    requires ValidVolume(v) && chain != [] && size > 0 && r == ReadOnce(v, size, Handle(0, chain[0]), UNIT)
    requires r.outcome.Done? && |r.bytes| == Min(UNIT, size) && AreBytes(v, FileSectors(v, chain), 0, r.bytes)
    requires r.handle.offset == |r.bytes| && ReadsAll(v, size, r.handle, at)
    ensures ReadAllFrom(v, size, Handle(0, chain[0])).0 == if at + size / SECTOR < |v.sectors| then Done(size) else Err
    ensures RightFile(v, size, chain) <==>
              at + size / SECTOR < |v.sectors| && SameBytes(v, FileSectors(v, chain), at, UNIT, size)
  {
    hide FileSectors, SameBytes, CellsThenZeros, FileThenZeros, AreBytes, ReadFrom;
    if at + size / SECTOR < |v.sectors| {
      OutputOfOne(v, FileSectors(v, chain), at, size, r.bytes, ReadAllFrom(v, size, r.handle).1);
    }
  }

  /** With one sector per cluster: the first unit is right, and everything after it is
      read from the stretch that belongs to the cluster in which that unit ends. */
  lemma ReadAllOfOne(v: Volume, size: nat, chain: seq<Cluster>)
    requires FileOn(v, chain, size) && v.sectorsPerCluster == 1
    ensures UnitCluster(size) < |chain| && FirstSector(v, chain[UnitCluster(size)]).Done?
    ensures var at := FirstSector(v, chain[UnitCluster(size)]).value;
            && (ReadAllFrom(v, size, Handle(0, chain[0])).0 ==
                if at + size / SECTOR < |v.sectors| then Done(size) else Err)
            && (RightFile(v, size, chain) <==>
                  at + size / SECTOR < |v.sectors| && SameBytes(v, FileSectors(v, chain), at, UNIT, size))
  {
    hide FirstSector, FileSectors, SameBytes, IsChain, AreBytes, ReadOnce, RightFile, ReadAllFrom, ReadsAll;
    FirstUnit(v, size, chain);
    var e := UnitCluster(size);
    SectorOfCluster(v, chain, e, 0);
    FirstSectorIs(v, chain[e]);
    var h, at := Handle(0, chain[0]), FirstSector(v, chain[e]).value;
    var r := ReadOnce(v, size, h, UNIT);
    ReadAllStretch(v, size, r.handle, at);
    if size == 0 {
      EmptyIsRight(v, chain, at);
    } else {
      UnitThenStretch(v, size, chain, at, r);
    }
  }

  lemma EmptyIsRight(v: Volume, chain: seq<Cluster>, at: nat)
    requires ValidVolume(v) && chain != [] && ReadsAll(v, 0, Handle(0, chain[0]), at)
    ensures ReadAllFrom(v, 0, Handle(0, chain[0])).0 == if at < |v.sectors| then Done(0) else Err
    ensures RightFile(v, 0, chain) <==> at < |v.sectors|
    ensures SameBytes(v, FileSectors(v, chain), at, UNIT, 0)
  {
    hide ReadAllFrom;
  }
}
