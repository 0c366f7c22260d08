/** Reading from a FAT16 volume: cluster arithmetic, the file allocation table, and
    the block-wise read of a file. */
module Fat16 {
  import opened Basics

  const SECTOR: nat := 512

  type Octet = x: int | 0 <= x < 256

  /** The fields of the BIOS parameter block that matter here, the sectors of the
      partition, and whether the driver is built with overflow checks: with them
      arithmetic that leaves 32 bits stops the kernel, without them it wraps. */
  datatype Volume = Volume(
    reserved: nat, fatCount: nat, sectorsPerFat: nat, rootEntries: nat, sectorsPerCluster: nat,
    sectors: seq<seq<Octet>>, checks: bool)

  /** Fields of one or two bytes each, sectors of 512 bytes, and a cluster size that is
      not zero. */
  ghost predicate ValidVolume(v: Volume) {
    && v.reserved < 65536 && v.fatCount < 256 && v.sectorsPerFat < 65536 && v.rootEntries < 65536
    && 0 < v.sectorsPerCluster < 256
    && forall i :: 0 <= i < |v.sectors| ==> |v.sectors[i]| == SECTOR
  }

  function FirstRootSector(v: Volume): nat { v.reserved + v.fatCount * v.sectorsPerFat }

  function FirstDataSector(v: Volume): nat { FirstRootSector(v) + v.rootEntries * 32 / SECTOR }

  function ReadBlock(v: Volume, n: nat): Option<seq<Octet>> {
    if n < |v.sectors| then Some(v.sectors[n]) else None
  }

  type Cluster = nat

  const ROOT_DIR: Cluster := 0xFFFF_FFFC
  const END_OF_FILE: Cluster := 0xFFFF_FFFF
  const INVALID: Cluster := 0xFFFF_FFF6

  /** `Stop` is the kernel stopping: arithmetic that overflows where that is checked, an
      index outside a block, or a block that must be there and is not. */
  datatype Outcome<T> = Done(value: T) | Err | Stop

  const WORD32: nat := 0x1_0000_0000

  /** The sector of cluster `c`, as 32-bit arithmetic has it. */
  function FirstSector(v: Volume, c: Cluster): Outcome<nat> {
    if c == ROOT_DIR then Done(FirstRootSector(v))
    else
      var n := (c - 2) * v.sectorsPerCluster + FirstDataSector(v);
      if v.checks && (c < 2 || n >= WORD32) then Stop else Done(n % WORD32)
  }

  /** The data begins after the reserved sectors, all copies of the table, and the root
      directory with sixteen entries to a sector. */
  lemma DataBegins(v: Volume)
    ensures FirstDataSector(v) == v.reserved + v.fatCount * v.sectorsPerFat + v.rootEntries / 16
  {
    assert v.rootEntries * 32 / 512 == v.rootEntries / 16;
  }

  /** No cluster that a table entry can name overflows. */
  lemma FirstSectorIs(v: Volume, c: Cluster)
    requires ValidVolume(v) && 2 <= c < 0xFFF6
    ensures FirstSector(v, c) == Done((c - 2) * v.sectorsPerCluster + FirstDataSector(v))
    ensures FirstDataSector(v) == v.reserved + v.fatCount * v.sectorsPerFat + v.rootEntries / 16
  {
    DataBegins(v);
    Products(c - 2, 0xFFFF, v.sectorsPerCluster, 255);
    Products(v.fatCount, 255, v.sectorsPerFat, 65535);
    SmallResidue((c - 2) * v.sectorsPerCluster + FirstDataSector(v));
  }

  lemma SmallResidue(n: nat)
    ensures n < WORD32 ==> n % WORD32 == n
  {
  }

  lemma Products(a: nat, a': nat, b: nat, b': nat)
    requires a <= a' && b <= b'
    ensures a * b <= a' * b'
  {
    assert a * b <= a' * b;
    assert a' * b <= a' * b';
  }

  /** The number for an invalid cluster wraps to twelve clusters before the data, and
      that for an empty one to two clusters before; in 32 bits, if that is below zero. */
  lemma WrappedSector(v: Volume)
    requires ValidVolume(v)
    ensures FirstSector(v, INVALID) ==
            if v.checks && WORD32 <= (INVALID - 2) * v.sectorsPerCluster + FirstDataSector(v) then Stop
            else Done((FirstDataSector(v) - 12 * v.sectorsPerCluster) % WORD32)
    ensures FirstSector(v, 0) ==
            if v.checks then Stop else Done((FirstDataSector(v) - 2 * v.sectorsPerCluster) % WORD32)
  {
    var spc, d := v.sectorsPerCluster, FirstDataSector(v);
    assert (INVALID - 2) * spc + d == spc * WORD32 + (d - 12 * spc);
    SameResidue(d - 12 * spc, spc);
  }

  lemma SameResidue(a: int, k: int)
    ensures (k * WORD32 + a) % WORD32 == a % WORD32
  {
  }

  function Word(b: seq<Octet>, at: nat): nat
    requires at + 2 <= |b|
  {
    b[at] as int + 256 * (b[at + 1] as int)
  }

  /** Only the first sector of the table is ever read. */
  function NextCluster(v: Volume, c: Cluster): Outcome<Cluster> {
    if c == ROOT_DIR then Done(END_OF_FILE)
    else
      var block, at := ReadBlock(v, v.reserved), c * 2 % WORD32;
      if block.None? || (v.checks && c * 2 >= WORD32) || at + 2 > |block.value| then Stop
      else
        var next := Word(block.value, at);
        Done(if next == 0 || 2 <= next < 0xFFF6 then next else INVALID)
  }

  // ---------------------------------------------------------------------------
  // The file allocation table
  // ---------------------------------------------------------------------------

  /** Entry `c` of the table, wherever in the table it lies. */
  function FatEntry(v: Volume, c: Cluster): Option<nat> {
    var block := ReadBlock(v, v.reserved + c * 2 / SECTOR);
    if block.None? || c * 2 % SECTOR + 2 > |block.value| then None else Some(Word(block.value, c * 2 % SECTOR))
  }

  /** The table is followed correctly exactly for the clusters in its first sector;
      without overflow checks the upper bit of a number is dropped on the way.  For
      those, an end mark and a bad mark alike come out as `INVALID`: the 16-bit marks
      are compared with their 32-bit forms. */
  lemma NextClusterIs(v: Volume, c: Cluster)
    requires ValidVolume(v) && v.reserved < |v.sectors| && c != ROOT_DIR && c < WORD32
    ensures NextCluster(v, c).Done? <==> c < 256 || (!v.checks && WORD32 / 2 <= c < WORD32 / 2 + 256)
    ensures c < 256 ==> var table := v.sectors[v.reserved];
                        FatEntry(v, c) == Some(table[2 * c] as int + 256 * (table[2 * c + 1] as int))
    ensures c < 256 ==> var e := FatEntry(v, c);
                        e.Some? && NextCluster(v, c) == Done(if e.value == 0 || 2 <= e.value < 0xFFF6 then e.value else INVALID)
  {
  }

  // ---------------------------------------------------------------------------
  // Reading a file
  // ---------------------------------------------------------------------------

  /** Where a handle stands. */
  datatype Handle = Handle(offset: nat, cluster: Cluster)

  /** Bytes that reached the buffer, and the handle after; with `Err` too, the bytes
      read before the error are in the buffer. */
  datatype ReadResult = ReadResult(outcome: Outcome<()>, bytes: seq<Octet>, handle: Handle)

  function Min(a: int, b: int): int { if a < b then a else b }

  /** One round of the loop: it ends, or goes on at the start of another sector. */
  datatype Round =
    | Ends(outcome: Outcome<()>, bytes: seq<Octet>, handle: Handle)
    | Goes(bytes: seq<Octet>, handle: Handle, sector: nat)

  /** One block, from byte `skip` of sector `sector`, counted from the first sector of
      the current cluster. */
  function OneRound(v: Volume, size: nat, h: Handle, sector: nat, skip: nat, want: nat): (r: Round)
    requires ValidVolume(v) && h.offset <= size && skip < SECTOR
    ensures r.handle.offset == h.offset + |r.bytes| <= size && |r.bytes| <= want
    ensures r.Ends? && r.outcome.Done? ==> |r.bytes| == want || r.handle.offset == size
    ensures r.Goes? ==> 0 < |r.bytes| < want
  {
    var first := FirstSector(v, h.cluster);
    if !first.Done? then Ends(Stop, [], h)
    else
      var block := ReadBlock(v, first.value + sector);
      if block.None? then Ends(Err, [], h)
      else
        var n := Min(Min(want, SECTOR - skip), size - h.offset);
        var bytes := block.value[skip..skip + n];
        var h1 := h.(offset := h.offset + n);
        if n == want || h1.offset == size then Ends(Done(()), bytes, h1)
        else if sector + 1 != v.sectorsPerCluster then Goes(bytes, h1, sector + 1)
        else
          match NextCluster(v, h.cluster)
          case Done(c) => Goes(bytes, h1.(cluster := c), 0)
          case Err => Ends(Err, bytes, h1)
          case Stop => Ends(Stop, bytes, h1)
  }

  /** The loop, for `want` more bytes. */
  function ReadFrom(v: Volume, size: nat, h: Handle, sector: nat, skip: nat, want: nat): (r: ReadResult)
    requires ValidVolume(v) && h.offset <= size && skip < SECTOR
    ensures r.handle.offset == h.offset + |r.bytes| <= size && |r.bytes| <= want
    ensures r.outcome.Done? ==> |r.bytes| == want || r.handle.offset == size
    decreases want
  {
    match OneRound(v, size, h, sector, skip, want)
    case Ends(outcome, bytes, h1) => ReadResult(outcome, bytes, h1)
    case Goes(bytes, h1, next) =>
      var r := ReadFrom(v, size, h1, next, 0, want - |bytes|);
      r.(bytes := bytes + r.bytes)
  }

  /** One call: the sector is computed from the whole offset, not from the offset in
      the current cluster. */
  function ReadOnce(v: Volume, size: nat, h: Handle, want: nat): ReadResult
    requires ValidVolume(v) && h.offset <= size
  {
    ReadFrom(v, size, h, h.offset / SECTOR, h.offset % SECTOR, want)
  }

  // ---------------------------------------------------------------------------
  // The bytes of a file
  // ---------------------------------------------------------------------------

  /** The clusters of a file as the table links them, each in its first sector. */
  ghost predicate IsChain(v: Volume, chain: seq<Cluster>) {
    chain != [] ==>
      && 2 <= chain[0] < 256 && IsChain(v, chain[1..])
      && (|chain| > 1 ==> FatEntry(v, chain[0]) == Some(chain[1]))
  }

  /** The sectors of the file, cluster after cluster. */
  function FileSectors(v: Volume, chain: seq<Cluster>): seq<nat> {
    if chain == [] then []
    else
      var first := FirstSector(v, chain[0]);
      seq(v.sectorsPerCluster, i => if first.Done? && i >= 0 then first.value + i else 0) + FileSectors(v, chain[1..])
  }

  /** Byte `i` of the concatenation of these sectors. */
  function ByteOf(v: Volume, secs: seq<nat>, i: nat): Octet
    requires ValidVolume(v)
  {
    if i / SECTOR < |secs| && secs[i / SECTOR] < |v.sectors| then v.sectors[secs[i / SECTOR]][i % SECTOR] else 0
  }

  ghost predicate OnVolume(v: Volume, secs: seq<nat>) { forall k :: 0 <= k < |secs| ==> secs[k] < |v.sectors| }

  /** Bytes `from` to `from + n` of the concatenation. */
  ghost predicate AreBytes(v: Volume, secs: seq<nat>, from: nat, bytes: seq<Octet>)
    requires ValidVolume(v)
  {
    forall j :: 0 <= j < |bytes| ==> bytes[j] == ByteOf(v, secs, from + j)
  }

  lemma OneSector(v: Volume, secs: seq<nat>, skip: nat, n: nat)
    requires ValidVolume(v) && OnVolume(v, secs) && secs != [] && skip + n <= SECTOR
    ensures |v.sectors[secs[0]]| == SECTOR && AreBytes(v, secs, skip, v.sectors[secs[0]][skip..skip + n])
  {
    var bytes := v.sectors[secs[0]][skip..skip + n];
    forall j | 0 <= j < |bytes| ensures bytes[j] == ByteOf(v, secs, skip + j) {
      assert (skip + j) / SECTOR == 0 && (skip + j) % SECTOR == skip + j;
    }
  }

  lemma ThenTheRest(v: Volume, secs: seq<nat>, skip: nat, a: seq<Octet>, b: seq<Octet>)
    requires ValidVolume(v) && secs != [] && skip + |a| == SECTOR
    requires AreBytes(v, secs, skip, a) && AreBytes(v, secs[1..], 0, b)
    ensures AreBytes(v, secs, skip, a + b)
  {
    forall j | |a| <= j < |a| + |b| ensures (a + b)[j] == ByteOf(v, secs, skip + j) {
      var i := j - |a|;
      assert skip + j == SECTOR + i;
      assert (SECTOR + i) / SECTOR == 1 + i / SECTOR && (SECTOR + i) % SECTOR == i % SECTOR;
      assert b[i] == ByteOf(v, secs[1..], i);
    }
  }

  lemma ChainTail(v: Volume, chain: seq<Cluster>)
    requires ValidVolume(v) && v.reserved < |v.sectors| && IsChain(v, chain) && chain != []
    ensures IsChain(v, chain[1..]) && 2 <= chain[0] < 256
    ensures chain[1..] == [] ==> FileSectors(v, chain[1..]) == []
    ensures chain[1..] != [] ==> NextCluster(v, chain[0]) == Done(chain[1])
  {
    NextClusterIs(v, chain[0]);
  }

  /** Sector `s` of the cluster `chain[0]`, with `secs` from there to the end. */
  ghost predicate Standing(v: Volume, chain: seq<Cluster>, s: nat, secs: seq<nat>) {
    && ValidVolume(v) && v.reserved < |v.sectors| && IsChain(v, chain) && chain != []
    && s < v.sectorsPerCluster && s <= |FileSectors(v, chain)| && secs == FileSectors(v, chain)[s..]
    && OnVolume(v, secs)
  }

  /** The cluster and the sector in it that come after sector `s` of `chain[0]`. */
  function After(v: Volume, chain: seq<Cluster>, s: nat): (seq<Cluster>, nat)
    requires chain != []
  {
    if s + 1 == v.sectorsPerCluster then (chain[1..], 0) else (chain, s + 1)
  }

  /** After sector `s` of cluster `c` the loop goes on in cluster `next`. */
  ghost predicate GoesTo(v: Volume, c: Cluster, s: nat, next: Cluster) {
    if s + 1 == v.sectorsPerCluster then NextCluster(v, c) == Done(next) else next == c
  }

  lemma StandingNext(v: Volume, chain: seq<Cluster>, s: nat, secs: seq<nat>)
    requires Standing(v, chain, s, secs)
    ensures secs != [] && FirstSector(v, chain[0]).Done? && secs[0] == FirstSector(v, chain[0]).value + s < |v.sectors|
    ensures var (rest, t) := After(v, chain, s);
            secs[1..] != [] ==> rest != [] && Standing(v, rest, t, secs[1..]) && GoesTo(v, chain[0], s, rest[0])
  {
    hide FirstSector, NextCluster, FatEntry;
    FirstSectorIs(v, chain[0]);
    ChainTail(v, chain);
    var (rest, t) := After(v, chain, s);
    assert secs[1..] == FileSectors(v, rest)[t..];
  }

  /** One round of the loop, from the sector `at`; `next` is where it goes on. */
  lemma OneRoundIs(v: Volume, size: nat, h: Handle, s: nat, skip: nat, want: nat, at: nat, next: Cluster, bytes: seq<Octet>)
    requires ValidVolume(v) && skip < SECTOR && h.offset <= size && at < |v.sectors|
    requires FirstSector(v, h.cluster).Done? && FirstSector(v, h.cluster).value + s == at
    requires |bytes| == Min(Min(want, SECTOR - skip), size - h.offset) && bytes == v.sectors[at][skip..skip + |bytes|]
    requires |bytes| != want && h.offset + |bytes| != size ==> GoesTo(v, h.cluster, s, next)
    ensures var t := if s + 1 == v.sectorsPerCluster then 0 else s + 1;
            OneRound(v, size, h, s, skip, want) ==
            if |bytes| == want || h.offset + |bytes| == size
            then Ends(Done(()), bytes, h.(offset := h.offset + |bytes|))
            else Goes(bytes, Handle(h.offset + |bytes|, next), t)
  {
    hide FirstSector, NextCluster;
  }

  lemma ReadUnfold(v: Volume, size: nat, h: Handle, s: nat, skip: nat, want: nat, at: nat, next: Cluster, bytes: seq<Octet>)
    requires ValidVolume(v) && skip < SECTOR && h.offset <= size && at < |v.sectors|
    requires FirstSector(v, h.cluster).Done? && FirstSector(v, h.cluster).value + s == at
    requires |bytes| == Min(Min(want, SECTOR - skip), size - h.offset) && bytes == v.sectors[at][skip..skip + |bytes|]
    requires |bytes| != want && h.offset + |bytes| != size ==> GoesTo(v, h.cluster, s, next)
    ensures var r := ReadFrom(v, size, h, s, skip, want);
            var h1 := h.(offset := h.offset + |bytes|);
            var t := if s + 1 == v.sectorsPerCluster then 0 else s + 1;
            if |bytes| == want || h1.offset == size then r == ReadResult(Done(()), bytes, h1)
            else var r1 := ReadFrom(v, size, h1.(cluster := next), t, 0, want - |bytes|);
                 r == r1.(bytes := bytes + r1.bytes)
  {
    hide OneRound, GoesTo, FirstSector;
    OneRoundIs(v, size, h, s, skip, want, at, next, bytes);
  }

  /** The read gets as many bytes as fit or remain, and they are those of `secs`. */
  ghost predicate Reads(v: Volume, size: nat, h: Handle, s: nat, secs: seq<nat>, skip: nat, want: nat)
    requires ValidVolume(v) && h.offset <= size && skip < SECTOR
  {
    var r := ReadFrom(v, size, h, s, skip, want);
    r.outcome.Done? && |r.bytes| == Min(want, size - h.offset) && AreBytes(v, secs, skip, r.bytes)
  }

  lemma ReadJoin(v: Volume, size: nat, h: Handle, s: nat, t: nat, next: Cluster, secs: seq<nat>, skip: nat, want: nat, n: nat)
    requires ValidVolume(v) && OnVolume(v, secs) && secs != [] && skip < SECTOR
    requires FirstSector(v, h.cluster).Done? && FirstSector(v, h.cluster).value + s == secs[0] && GoesTo(v, h.cluster, s, next)
    requires n == SECTOR - skip < want && h.offset + n < size && t == if s + 1 == v.sectorsPerCluster then 0 else s + 1
    requires Reads(v, size, Handle(h.offset + n, next), t, secs[1..], 0, want - n)
    ensures Reads(v, size, h, s, secs, skip, want)
  {
    hide FirstSector, NextCluster, AreBytes, ReadFrom, GoesTo;
    OneSector(v, secs, skip, n);
    var bytes := v.sectors[secs[0]][skip..skip + n];
    ReadUnfold(v, size, h, s, skip, want, secs[0], next, bytes);
    ThenTheRest(v, secs, skip, bytes, ReadFrom(v, size, Handle(h.offset + n, next), t, 0, want - n).bytes);
  }

  lemma ReadEnds(v: Volume, size: nat, h: Handle, chain: seq<Cluster>, s: nat, secs: seq<nat>, skip: nat, want: nat)
    requires Standing(v, chain, s, secs) && skip < SECTOR && h.offset <= size && h.cluster == chain[0]
    requires Min(want, size - h.offset) <= SECTOR - skip
    ensures Reads(v, size, h, s, secs, skip, want)
  {
    StandingNext(v, chain, s, secs);
    hide FirstSector, NextCluster, FileSectors, IsChain, AreBytes, ReadFrom;
    var n := Min(want, size - h.offset);
    OneSector(v, secs, skip, n);
    ReadUnfold(v, size, h, s, skip, want, secs[0], 0, v.sectors[secs[0]][skip..skip + n]);
  }

  /** A read from where the handle really stands gets the next bytes of the file, as
      many as fit or remain. */
  lemma {:induction false} ReadFollowsChain(
      v: Volume, size: nat, h: Handle, chain: seq<Cluster>, s: nat, secs: seq<nat>, skip: nat, want: nat)
    requires Standing(v, chain, s, secs) && skip < SECTOR && h.offset <= size && h.cluster == chain[0]
    requires size - h.offset + skip <= |secs| * SECTOR
    ensures Reads(v, size, h, s, secs, skip, want)
    decreases want
  {
    assert ValidVolume(v) && chain != [] && OnVolume(v, secs);
    hide Reads, Standing, FirstSector, GoesTo;
    var n := SECTOR - skip;
    if Min(want, size - h.offset) <= n {
      ReadEnds(v, size, h, chain, s, secs, skip, want);
    } else {
      StandingNext(v, chain, s, secs);
      assert |secs| * SECTOR == |secs[1..]| * SECTOR + SECTOR;
      var (rest, t) := After(v, chain, s);
      ReadFollowsChain(v, size, Handle(h.offset + n, rest[0]), rest, t, secs[1..], 0, want - n);
      ReadJoin(v, size, h, s, t, rest[0], secs, skip, want, n);
    }
  }

  /** A file of `size` bytes on `chain`, inside the partition. */
  ghost predicate FileOn(v: Volume, chain: seq<Cluster>, size: nat) {
    && ValidVolume(v) && v.reserved < |v.sectors| && IsChain(v, chain) && chain != []
    && OnVolume(v, FileSectors(v, chain)) && size <= |FileSectors(v, chain)| * SECTOR
  }

  /** One read on a fresh handle: the first bytes of the file, as many as the buffer
      holds or the file has. */
  lemma FreshRead(v: Volume, size: nat, chain: seq<Cluster>, want: nat)
    requires FileOn(v, chain, size)
    ensures var r := ReadOnce(v, size, Handle(0, chain[0]), want);
            && r.outcome.Done? && |r.bytes| == Min(want, size)
            && AreBytes(v, FileSectors(v, chain), 0, r.bytes)
  {
    assert FileSectors(v, chain)[0..] == FileSectors(v, chain);
    ReadFollowsChain(v, size, Handle(0, chain[0]), chain, 0, FileSectors(v, chain), 0, want);
  }

  // ---------------------------------------------------------------------------
  // Reading on
  // ---------------------------------------------------------------------------

  lemma {:induction false} SectorOfCluster(v: Volume, chain: seq<Cluster>, j: nat, s: nat)
    requires ValidVolume(v) && IsChain(v, chain) && j < |chain| && s < v.sectorsPerCluster
    ensures 2 <= chain[j] < 256
    ensures j * v.sectorsPerCluster + s < |FileSectors(v, chain)|
    ensures FileSectors(v, chain)[j * v.sectorsPerCluster + s] ==
            (chain[j] - 2) * v.sectorsPerCluster + FirstDataSector(v) + s
    ensures FirstDataSector(v) == v.reserved + v.fatCount * v.sectorsPerFat + v.rootEntries / 16
    decreases j
  {
    hide FirstSector, FatEntry, FirstDataSector;
    DataBegins(v);
    FirstSectorIs(v, chain[0]);
    if j > 0 {
      SectorOfCluster(v, chain[1..], j - 1, s);
      assert j * v.sectorsPerCluster == (j - 1) * v.sectorsPerCluster + v.sectorsPerCluster;
    }
  }

  /** Counting the sectors of the whole file from cluster `q` of the chain leads to
      sector `s` of cluster `j` exactly when cluster `j` is numbered `j` after it. */
  lemma CountedFrom(v: Volume, chain: seq<Cluster>, q: nat, j: nat, s: nat)
    requires ValidVolume(v) && IsChain(v, chain) && q < |chain| && j < |chain| && s < v.sectorsPerCluster
    ensures var k := j * v.sectorsPerCluster + s;
            && FirstSector(v, chain[q]).Done? && k < |FileSectors(v, chain)|
            && (FirstSector(v, chain[q]).value + k == FileSectors(v, chain)[k] <==> chain[j] == chain[q] + j)
  {
    hide FirstSector, FileSectors, FirstDataSector, IsChain;
    SectorOfCluster(v, chain, j, s);
    SectorOfCluster(v, chain, q, 0);
    FirstSectorIs(v, chain[q]);
    SameMultiple(chain[q] - 2, j, chain[j] - 2, v.sectorsPerCluster);
  }

  lemma SameMultiple(a: int, j: int, b: int, n: int)
    requires n > 0
    ensures a * n + j * n == b * n <==> a + j == b
  {
    var d := a + j - b;
    assert a * n + j * n == b * n + d * n;
    assert d > 0 ==> d * n > 0;
    assert d < 0 ==> d * n < 0;
  }

  /** The clusters follow one another on the disk. */
  ghost predicate Consecutive(chain: seq<Cluster>) {
    forall j :: 0 <= j < |chain| ==> chain[j] == chain[0] + j
  }

  lemma NextFirstSector(v: Volume, c: Cluster)
    requires ValidVolume(v) && 2 <= c < 256
    ensures FirstSector(v, c).Done? && FirstSector(v, c + 1).Done?
    ensures FirstSector(v, c + 1).value == FirstSector(v, c).value + v.sectorsPerCluster
  {
    hide FirstSector;
    FirstSectorIs(v, c);
    FirstSectorIs(v, c + 1);
    assert (c + 1 - 2) * v.sectorsPerCluster == (c - 2) * v.sectorsPerCluster + v.sectorsPerCluster;
  }

  lemma {:induction false} ConsecutiveSectors(v: Volume, chain: seq<Cluster>, k: nat)
    requires ValidVolume(v) && IsChain(v, chain) && Consecutive(chain) && k < |FileSectors(v, chain)|
    ensures chain != [] && FirstSector(v, chain[0]).Done?
    ensures FileSectors(v, chain)[k] == FirstSector(v, chain[0]).value + k
    decreases |chain|
  {
    hide FirstSector, FatEntry;
    NextFirstSector(v, chain[0]);
    if k >= v.sectorsPerCluster {
      var rest := chain[1..];
      assert rest != [] && rest[0] == chain[1];
      ConsecutiveSectors(v, rest, k - v.sectorsPerCluster);
    }
  }

  // ---------------------------------------------------------------------------
  // Reading everything
  // ---------------------------------------------------------------------------

  const UNIT: nat := 1024

  function Zeros(n: nat): seq<Octet> { seq(n, _ => 0) }

  /** Units of 1024 bytes are read and appended whole, up to and including the first
      that gets nothing. */
  function ReadAllFrom(v: Volume, size: nat, h: Handle): (Outcome<nat>, seq<Octet>)
    requires ValidVolume(v) && h.offset <= size
    decreases size - h.offset
  {
    var r := ReadOnce(v, size, h, UNIT);
    match r.outcome
    case Stop => (Stop, [])
    case Err => (Err, [])
    case Done(_) =>
      var unit := r.bytes + Zeros(UNIT - |r.bytes|);
      if r.bytes == [] then (Done(0), unit)
      else
        var (n, rest) := ReadAllFrom(v, size, r.handle);
        (if n.Done? then Done(|r.bytes| + n.value) else n, unit + rest)
  }

  /** The sectors from `first` on, as far as a file of `size` bytes needs them. */
  function Straight(first: nat, size: nat): seq<nat> {
    seq((size + SECTOR - 1) / SECTOR, i => if i >= 0 then first + i else 0)
  }

  /** `out` is the file from byte `from` on, followed only by zeros. */
  ghost predicate FileThenZeros(v: Volume, secs: seq<nat>, size: nat, from: nat, out: seq<Octet>)
    requires ValidVolume(v)
  {
    && from + |out| >= size
    && forall j :: 0 <= j < |out| ==> out[j] == if from + j < size then ByteOf(v, secs, from + j) else 0
  }
}
