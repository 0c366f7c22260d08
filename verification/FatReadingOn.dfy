/** The second read on a handle: the sector is counted over the whole file, but from
    the cluster the handle has come to. */
module FatReadingOn {
  import opened Basics
  import opened Fat16

  /** The block that a call reads first. */
  function NextBlock(v: Volume, h: Handle): Outcome<nat> {
    match FirstSector(v, h.cluster)
    case Done(first) => Done(first + h.offset / SECTOR)
    case Err => Err
    case Stop => Stop
  }

  /** The first byte a call reads is the one at its offset in that block. */
  lemma FirstByte(v: Volume, size: nat, h: Handle, want: nat)
    requires ValidVolume(v) && h.offset < size && want > 0 && NextBlock(v, h).Done?
    ensures var r := ReadOnce(v, size, h, want);
            if NextBlock(v, h).value < |v.sectors|
            then r.bytes != [] && r.bytes[0] == v.sectors[NextBlock(v, h).value][h.offset % SECTOR]
            else r == ReadResult(Err, [], h)
  {
    hide FirstSector, NextCluster;
    var round := OneRound(v, size, h, h.offset / SECTOR, h.offset % SECTOR, want);
    if NextBlock(v, h).value < |v.sectors| {
      assert round.bytes != [] && round.bytes[0] == v.sectors[NextBlock(v, h).value][h.offset % SECTOR];
    }
  }

  // ---------------------------------------------------------------------------
  // Where a read leaves the handle
  // ---------------------------------------------------------------------------

  /** Sector `k`, counted from the first of a chain, lies in its cluster `e`. */
  predicate LiesIn(v: Volume, e: nat, k: nat) {
    e * v.sectorsPerCluster <= k < (e + 1) * v.sectorsPerCluster
  }

  lemma LiesInRest(v: Volume, e: nat, s: nat, k: nat)
    requires s + 1 == v.sectorsPerCluster && k > 0 && LiesIn(v, e, k - 1)
    ensures LiesIn(v, e + 1, s + k)
  {
    assert (e + 1) * v.sectorsPerCluster == e * v.sectorsPerCluster + v.sectorsPerCluster;
    assert (e + 2) * v.sectorsPerCluster == (e + 1) * v.sectorsPerCluster + v.sectorsPerCluster;
  }

  /** The sector, from the current one on, of the last byte that is read. */
  function LastSector(skip: nat, n: nat): nat
    requires n > 0
  {
    (skip + n - 1) / SECTOR
  }

  lemma LiesHere(v: Volume, s: nat, skip: nat, n: nat)
    requires s < v.sectorsPerCluster && 0 < n <= SECTOR - skip
    ensures LiesIn(v, 0, s + LastSector(skip, n))
  {
  }

  lemma LastSectorNext(skip: nat, n: nat, n': nat)
    requires skip < SECTOR && n == SECTOR - skip < n'
    ensures LastSector(skip, n') == 1 + LastSector(0, n' - n)
  {
  }

  lemma StaysHere(v: Volume, size: nat, h: Handle, s: nat, secs: seq<nat>, skip: nat, want: nat)
    requires ValidVolume(v) && OnVolume(v, secs) && secs != [] && skip < SECTOR && h.offset <= size
    requires FirstSector(v, h.cluster).Done? && FirstSector(v, h.cluster).value + s == secs[0]
    requires Min(want, size - h.offset) <= SECTOR - skip
    ensures ReadFrom(v, size, h, s, skip, want).handle.cluster == h.cluster
  {
    hide FirstSector, ReadFrom;
    var n := Min(want, size - h.offset);
    OneSector(v, secs, skip, n);
    ReadUnfold(v, size, h, s, skip, want, secs[0], 0, v.sectors[secs[0]][skip..skip + n]);
  }

  lemma GoesOn(v: Volume, size: nat, h: Handle, s: nat, t: nat, next: Cluster, secs: seq<nat>, skip: nat, want: nat, n: nat)
    requires ValidVolume(v) && OnVolume(v, secs) && secs != [] && skip < SECTOR
    requires FirstSector(v, h.cluster).Done? && FirstSector(v, h.cluster).value + s == secs[0] && GoesTo(v, h.cluster, s, next)
    requires n == SECTOR - skip < want && h.offset + n < size && t == if s + 1 == v.sectorsPerCluster then 0 else s + 1
    ensures ReadFrom(v, size, h, s, skip, want).handle == ReadFrom(v, size, Handle(h.offset + n, next), t, 0, want - n).handle
  {
    hide FirstSector, GoesTo, ReadFrom;
    OneSector(v, secs, skip, n);
    ReadUnfold(v, size, h, s, skip, want, secs[0], next, v.sectors[secs[0]][skip..skip + n]);
  }

  lemma StandingIs(v: Volume, chain: seq<Cluster>, s: nat, secs: seq<nat>)
    requires Standing(v, chain, s, secs)
    ensures ValidVolume(v) && chain != [] && OnVolume(v, secs) && s < v.sectorsPerCluster
  {
  }

  /** The sectors hold that many bytes. */
  predicate Enough(secs: seq<nat>, bytes: int) { bytes <= |secs| * SECTOR }

  lemma EnoughNext(secs: seq<nat>, bytes: int)
    requires secs != [] && Enough(secs, bytes) && bytes > SECTOR
    ensures secs[1..] != [] && Enough(secs[1..], bytes - SECTOR)
  {
  }

  /** A read that gets something ends in the cluster of the last byte it got. */
  lemma {:induction false} HandleAfter(
      v: Volume, size: nat, h: Handle, chain: seq<Cluster>, s: nat, secs: seq<nat>, skip: nat, want: nat)
      returns (e: nat)
    requires Standing(v, chain, s, secs) && skip < SECTOR && h.offset < size && h.cluster == chain[0] && want > 0
    requires Enough(secs, size - h.offset + skip)
    ensures e < |chain| && ReadFrom(v, size, h, s, skip, want).handle.cluster == chain[e]
    ensures LiesIn(v, e, s + LastSector(skip, Min(want, size - h.offset)))
    decreases want
  {
    hide Standing, FirstSector, GoesTo, ReadFrom, OnVolume, ValidVolume, LiesIn, LastSector, Enough;
    StandingIs(v, chain, s, secs);
    StandingNext(v, chain, s, secs);
    var all, n := Min(want, size - h.offset), SECTOR - skip;
    if all <= n {
      e := 0;
      LiesHere(v, s, skip, all);
      StaysHere(v, size, h, s, secs, skip, want);
    } else {
      EnoughNext(secs, size - h.offset + skip);
      var (rest, t) := After(v, chain, s);
      var e1 := HandleAfter(v, size, Handle(h.offset + n, rest[0]), rest, t, secs[1..], 0, want - n);
      GoesOn(v, size, h, s, t, rest[0], secs, skip, want, n);
      LastSectorNext(skip, n, all);
      if s + 1 == v.sectorsPerCluster {
        e := e1 + 1;
        LiesInRest(v, e1, s, LastSector(skip, all));
      } else {
        e := e1;
      }
    }
  }

  /** After a first read of `w` bytes the handle is at `w`, in the cluster of the last
      byte read. */
  lemma AfterFirst(v: Volume, size: nat, chain: seq<Cluster>, w: nat) returns (e: nat)
    requires FileOn(v, chain, size) && 0 < w < size
    ensures e < |chain| && ReadOnce(v, size, Handle(0, chain[0]), w).handle == Handle(w, chain[e])
    ensures LiesIn(v, e, (w - 1) / SECTOR)
  {
    hide IsChain, ReadFrom;
    assert FileSectors(v, chain)[0..] == FileSectors(v, chain);
    FreshRead(v, size, chain, w);
    e := HandleAfter(v, size, Handle(0, chain[0]), chain, 0, FileSectors(v, chain), 0, w);
  }

  // ---------------------------------------------------------------------------
  // The second read
  // ---------------------------------------------------------------------------

  lemma SameCluster(v: Volume, e: nat, j: nat, k: nat)
    requires LiesIn(v, e, k) && LiesIn(v, j, k)
    ensures e == j
  {
    LaterStarts(e, j, v.sectorsPerCluster);
    LaterStarts(j, e, v.sectorsPerCluster);
  }

  lemma {:induction false} LaterStarts(e: nat, j: nat, n: nat)
    ensures e < j ==> (e + 1) * n <= j * n
    decreases j
  {
    if e + 1 < j {
      LaterStarts(e, j - 1, n);
      assert j * n == (j - 1) * n + n;
    }
  }

  /** The cluster of the last byte read, from that of the next one. */
  lemma ClusterBefore(v: Volume, e: nat, j: nat, w: nat)
    requires v.sectorsPerCluster > 0 && w > 0 && LiesIn(v, e, (w - 1) / SECTOR) && LiesIn(v, j, w / SECTOR)
    ensures if w == j * v.sectorsPerCluster * SECTOR then j > 0 && e == j - 1 else e == j
  {
    var k := j * v.sectorsPerCluster;
    if w == k * SECTOR {
      assert w / SECTOR == k && (w - 1) / SECTOR == k - 1;
      assert j > 0;
      assert k == (j - 1) * v.sectorsPerCluster + v.sectorsPerCluster;
      SameCluster(v, e, j - 1, k - 1);
    } else {
      assert w > k * SECTOR;
      assert (w - 1) / SECTOR >= k;
      SameCluster(v, e, j, (w - 1) / SECTOR);
    }
  }

  /** After a first read of `w` bytes, with the next byte in cluster `j` of the file,
      the second call starts on the file's next block exactly if that is still the
      first cluster, or the first read stopped at the end of a cluster and the next
      one is numbered `j` after it. */
  lemma SecondReadStarts(v: Volume, size: nat, chain: seq<Cluster>, w: nat, j: nat)
    requires FileOn(v, chain, size) && 0 < w < size && j < |chain| && LiesIn(v, j, w / SECTOR)
    ensures var h := ReadOnce(v, size, Handle(0, chain[0]), w).handle;
            && NextBlock(v, h).Done? && w / SECTOR < |FileSectors(v, chain)|
            && (NextBlock(v, h).value == FileSectors(v, chain)[w / SECTOR] <==>
                  j == 0 || (w == j * v.sectorsPerCluster * SECTOR && chain[j] == chain[j - 1] + j))
  {
    var e := AfterFirst(v, size, chain, w);
    ClusterBefore(v, e, j, w);
    assert (j + 1) * v.sectorsPerCluster == j * v.sectorsPerCluster + v.sectorsPerCluster;
    hide FirstSector, FileSectors, IsChain, ReadOnce, LiesIn;
    var s := w / SECTOR - j * v.sectorsPerCluster;
    SectorOfCluster(v, chain, j, s);
    CountedFrom(v, chain, e, j, s);
  }

  lemma SplitBytes(v: Volume, secs: seq<nat>, w: nat, bytes: seq<Octet>)
    requires ValidVolume(v) && w / SECTOR <= |secs| && AreBytes(v, secs[w / SECTOR..], w % SECTOR, bytes)
    ensures AreBytes(v, secs, w, bytes)
  {
    var k := w / SECTOR;
    forall i | 0 <= i < |bytes| ensures bytes[i] == ByteOf(v, secs, w + i) {
      assert w + i == k * SECTOR + (w % SECTOR + i);
      assert (w + i) / SECTOR == k + (w % SECTOR + i) / SECTOR && (w + i) % SECTOR == (w % SECTOR + i) % SECTOR;
      assert bytes[i] == ByteOf(v, secs[k..], w % SECTOR + i);
    }
  }

  /** As long as the first read stays below the end of the first cluster, the second
      gets the next bytes of the file, on any chain. */
  lemma SecondReadIsRight(v: Volume, size: nat, chain: seq<Cluster>, w: nat, want: nat)
    requires FileOn(v, chain, size) && w < size && w / SECTOR < v.sectorsPerCluster
    ensures var h := ReadOnce(v, size, Handle(0, chain[0]), w).handle;
            var r := ReadOnce(v, size, h, want);
            && h == Handle(w, chain[0]) && r.outcome.Done? && |r.bytes| == Min(want, size - w)
            && AreBytes(v, FileSectors(v, chain), w, r.bytes)
  {
    var h, secs, s := Handle(w, chain[0]), FileSectors(v, chain), w / SECTOR;
    FreshRead(v, size, chain, w);
    FirstClusterKept(v, size, chain, w);
    hide IsChain, ReadFrom, FileSectors;
    SectorOfCluster(v, chain, 0, s);
    assert |secs[s..]| * SECTOR == |secs| * SECTOR - s * SECTOR;
    ReadFollowsChain(v, size, h, chain, s, secs[s..], w % SECTOR, want);
    SplitBytes(v, secs, w, ReadOnce(v, size, h, want).bytes);
  }

  lemma FirstClusterKept(v: Volume, size: nat, chain: seq<Cluster>, w: nat)
    requires FileOn(v, chain, size) && w < size && w / SECTOR < v.sectorsPerCluster
    ensures ReadOnce(v, size, Handle(0, chain[0]), w).handle.cluster == chain[0]
  {
    if w > 0 {
      var e := AfterFirst(v, size, chain, w);
      assert (w - 1) / SECTOR <= w / SECTOR;
      SameCluster(v, e, 0, (w - 1) / SECTOR);
    } else {
      SectorOfCluster(v, chain, 0, 0);
      hide FirstSector, FileSectors, IsChain;
      FirstBlockIsThere(v, chain);
      StaysHere(v, size, Handle(0, chain[0]), 0, FileSectors(v, chain), 0, 0);
    }
  }

  lemma FirstBlockIsThere(v: Volume, chain: seq<Cluster>)
    requires ValidVolume(v) && IsChain(v, chain) && chain != []
    ensures FileSectors(v, chain) != [] && FirstSector(v, chain[0]) == Done(FileSectors(v, chain)[0])
  {
    FirstSectorIs(v, chain[0]);
  }

  /** Three clusters of one sector each, one after the other, and one more sector.  The
      first read takes two of them; the second, told to go on, reads the sector after
      the third. */
  lemma SecondReadFails(checks: bool) returns (v: Volume, chain: seq<Cluster>)
    ensures FileOn(v, chain, 1536) && Consecutive(chain) && v.sectorsPerCluster == 1
    ensures var r1 := ReadOnce(v, 1536, Handle(0, chain[0]), 1024);
            var r2 := ReadOnce(v, 1536, r1.handle, 1);
            && r1.outcome.Done? && |r1.bytes| == 1024
            && r2.bytes != [] && r2.bytes[0] == 1 && ByteOf(v, FileSectors(v, chain), 1024) == 0
  {
    hide FirstSector, IsChain, FileSectors, ReadFrom, AreBytes;
    var fat: seq<Octet> := seq(512, i => if i == 4 then 3 else if i == 6 then 4 else 0);
    var zeros: seq<Octet>, ones: seq<Octet> := seq(512, _ => 0), seq(512, _ => 1);
    v, chain := Volume(0, 1, 1, 0, 1, [fat, zeros, zeros, zeros, ones], checks), [2, 3, 4];
    SmallChain(v, fat, chain);
    FreshRead(v, 1536, chain, 1024);
    var e := AfterFirst(v, 1536, chain, 1024);
    SameCluster(v, e, 1, 1);
    FirstSectorIs(v, 3);
    FirstByte(v, 1536, Handle(1024, 3), 1);
  }

  lemma SmallTable(v: Volume)
    requires ValidVolume(v) && v.reserved == 0 && |v.sectors| > 0
    requires var fat := v.sectors[0]; fat[4] == 3 && fat[5] == 0 && fat[6] == 4 && fat[7] == 0
    ensures FatEntry(v, 2) == Some(3) && FatEntry(v, 3) == Some(4)
  {
  }

  lemma SmallChain(v: Volume, fat: seq<Octet>, chain: seq<Cluster>)
    requires v.reserved == 0 && v.fatCount == 1 && v.sectorsPerFat == 1 && v.rootEntries == 0 && v.sectorsPerCluster == 1
    requires ValidVolume(v) && |v.sectors| == 5 && v.sectors[0] == fat && |fat| == SECTOR && chain == [2, 3, 4]
    requires fat[4] == 3 && fat[5] == 0 && fat[6] == 4 && fat[7] == 0
    ensures IsChain(v, chain) && FileSectors(v, chain) == [1, 2, 3]
  {
    hide FirstSector, FatEntry, FileSectors;
    SmallTable(v);
    assert chain[1..] == [3, 4] && [3, 4][1..] == [4] && [4][1..] == [];
    assert IsChain(v, [4]) && IsChain(v, [3, 4]);
    OneSectorMore(v, chain, 1);
    OneSectorMore(v, [3, 4], 2);
    OneSectorMore(v, [4], 3);
    NoSectors(v);
  }

  lemma OneSectorMore(v: Volume, chain: seq<Cluster>, first: nat)
    requires ValidVolume(v) && v.sectorsPerCluster == 1 && chain != [] && 2 <= chain[0] < 256
    requires chain[0] - 2 + FirstDataSector(v) == first
    ensures FileSectors(v, chain) == [first] + FileSectors(v, chain[1..])
  {
    hide FirstSector;
    FirstSectorIs(v, chain[0]);
  }

  lemma NoSectors(v: Volume)
    ensures FileSectors(v, []) == []
  {
  }
}
