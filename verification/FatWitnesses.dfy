/** Volumes on which reading does not do what it is meant to; where `checks` is a
    parameter, in either build. */
module FatWitnesses {
  import opened Basics
  import opened Fat16
  import opened FatReadAll
  import opened FatNames
  import opened FatDirectories
  import FatLayout

  function Filled(b: Octet): (s: seq<Octet>)
    ensures |s| == SECTOR && forall i :: 0 <= i < SECTOR ==> s[i] == b
  {
    seq(SECTOR, _ => b)
  }

  /** Entry 256 of the table is the first in its second sector. */
  lemma ClusterInSecondSector(checks: bool) returns (v: Volume)
    ensures ValidVolume(v) && FatEntry(v, 256) == Some(300) && NextCluster(v, 256) == Stop
  {
    v := Volume(0, 1, 2, 0, 1, [Filled(0), [44, 1] + Filled(0)[2..]], checks);
    assert v.sectors[1][0] == 44 && v.sectors[1][1] == 1;
  }

  /** The mark for the end of a file, as it stands in the table. */
  lemma EndMarkIsInvalid(checks: bool) returns (v: Volume)
    ensures ValidVolume(v) && FatEntry(v, 2) == Some(0xFFFF) && NextCluster(v, 2) == Done(INVALID)
  {
    v := Volume(0, 1, 1, 0, 1, [Filled(255)], checks);
  }

  lemma OneCluster(v: Volume, c: Cluster, first: nat)
    requires ValidVolume(v) && 2 <= c < 256 && (c - 2) * v.sectorsPerCluster + FirstDataSector(v) == first
    ensures IsChain(v, [c]) && FirstSector(v, c) == Done(first)
    ensures FileSectors(v, [c]) == seq(v.sectorsPerCluster, i => if i >= 0 then first + i else 0)
  {
    FirstSectorIs(v, c);
    var chain := [c];
    assert chain[1..] == [] && IsChain(v, []) && FileSectors(v, []) == [];
  }

  lemma EndsOutside(v: Volume, size: nat, chain: seq<Cluster>)
    requires FileOn(v, chain, size) && v.sectorsPerCluster % 2 == 0
    requires FirstSector(v, chain[0]).Done? && FirstSector(v, chain[0]).value + size / SECTOR >= |v.sectors|
    ensures ReadAllFrom(v, size, Handle(0, chain[0])).0 == Err
  {
    hide FirstSector, FileOn, ReadAllFrom, RightFile, SameBytes;
    ReadAllIs(v, size, chain);
  }

  lemma TwoSectors(v: Volume)
    requires ValidVolume(v) && |v.sectors| >= 3
    ensures OnVolume(v, [1, 2]) && 1024 <= |[1, 2]| * SECTOR
  {
  }

  lemma OnlyCluster(v: Volume)
    requires ValidVolume(v) && FirstDataSector(v) == 1 && v.reserved == 0 && v.sectorsPerCluster == 2 && |v.sectors| == 3
    ensures FileOn(v, [2], 1024) && FirstSector(v, 2) == Done(1)
  {
    hide FirstSector, IsChain, FileSectors;
    OneCluster(v, 2, 1);
    assert FileSectors(v, [2]) == [1, 2];
    TwoSectors(v);
  }

  /** One cluster of two sectors at the end of the partition, filled by a file. */
  lemma FileFillsPartition(checks: bool) returns (v: Volume)
    ensures FileOn(v, [2], 1024) && Consecutive([2]) && v.sectorsPerCluster == 2 && |v.sectors| == 3
    ensures ReadAllFrom(v, 1024, Handle(0, 2)).0 == Err
  {
    hide FirstSector, FileOn, ReadAllFrom;
    v := Volume(0, 1, 1, 0, 2, [Filled(0), Filled(0), Filled(0)], checks);
    OnlyCluster(v);
    EndsOutside(v, 1024, [2]);
  }

  lemma TwoFragments(v: Volume)
    requires ValidVolume(v) && FirstDataSector(v) == 1 && v.reserved == 0 && v.sectorsPerCluster == 2 && |v.sectors| == 8
    requires FatEntry(v, 2) == Some(4)
    ensures FileOn(v, [2, 4], 2048) && FileSectors(v, [2, 4]) == [1, 2, 5, 6] && FirstSector(v, 2) == Done(1)
  {
    hide FirstSector, FatEntry;
    OneCluster(v, 4, 5);
    FirstSectorIs(v, 2);
    var chain := [2, 4];
    assert chain[1..] == [4];
    assert FileSectors(v, chain) == [1, 2, 5, 6];
  }

  lemma OtherBytes(v: Volume)
    requires FileOn(v, [2, 4], 2048) && v.sectorsPerCluster % 2 == 0 && |v.sectors| == 8
    requires FileSectors(v, [2, 4]) == [1, 2, 5, 6] && FirstSector(v, 2) == Done(1)
    requires v.sectors[5] == Filled(1) && v.sectors[3] == Filled(0)
    ensures ReadAllFrom(v, 2048, Handle(0, 2)).0 == Done(2048) && !RightFile(v, 2048, [2, 4])
  {
    hide FirstSector, FileSectors, IsChain, ReadAllFrom, RightFile;
    ReadAllIs(v, 2048, [2, 4]);
    assert 1024 / SECTOR == 2 && 1024 % SECTOR == 0;
    assert ByteOf(v, [1, 2, 5, 6], 1024) == v.sectors[5][0] && Cell(v, 1, 1024) == v.sectors[3][0];
  }

  /** Two clusters of two sectors with another between them: the bytes of that one are
      taken for the second half of the file. */
  lemma FragmentedFile(checks: bool) returns (v: Volume)
    ensures FileOn(v, [2, 4], 2048) && v.sectorsPerCluster == 2
    ensures ReadAllFrom(v, 2048, Handle(0, 2)).0 == Done(2048) && !RightFile(v, 2048, [2, 4])
  {
    hide FirstSector, FileOn, FileSectors, ReadAllFrom, RightFile;
    var z, fat := Filled(0), Filled(0)[4 := 4];
    v := Volume(0, 1, 1, 0, 2, [fat, z, z, z, z, Filled(1), Filled(1), z], checks);
    assert FatEntry(v, 2) == Some(4);
    TwoFragments(v);
    OtherBytes(v);
  }

  lemma SmallDirectory(v: Volume, n: nat)
    requires ValidVolume(v) && v.sectorsPerCluster == 1 && FirstDataSector(v) == n < |v.sectors| && v.sectors[n] == Filled(65)
    requires FatEntry(v, 2) == Some(0xFFFF) && v.reserved < |v.sectors|
    ensures FullDirectory(v, [2])
  {
    hide FirstSector, NextCluster, FatEntry, ValidAt;
    FirstSectorIs(v, 2);
    NextClusterIs(v, 2);
    forall i | 0 <= i < PerCluster(v) ensures ValidAt(v, n, i) {
      InUse(v, n, i);
    }
  }

  lemma InUse(v: Volume, n: nat, i: nat)
    requires ValidVolume(v) && n < |v.sectors| && v.sectors[n] == Filled(65) && i < 16
    ensures ValidAt(v, n, i)
  {
    var at := i * ENTRY;
    assert i % ENTRIES_PER_BLOCK == i && i / ENTRIES_PER_BLOCK == 0;
    assert Filled(65)[at..at + ENTRY][..11][0] == 65;
  }

  lemma StopsPast(v: Volume)
    requires ValidVolume(v) && FullDirectory(v, [2]) && PastTheEnd(v) >= |v.sectors|
    ensures Listing(v, [2, INVALID]) == Stop
  {
    hide FirstSector, Listing, Whole, SomeOf, EndsAt, IsValid, FullDirectory, PastTheEnd;
    FullDirectoryIs(v, [2]);
    assert [2] + [INVALID] == [2, INVALID];
    forall k: nat ensures !EndsAt(v, INVALID, k) {
      NothingPast(v, k);
    }
  }

  /** A directory of one sector, its sixteen entries all in use: nothing ends it. */
  lemma FullDirectoryStops(checks: bool) returns (v: Volume)
    ensures ValidVolume(v) && FullDirectory(v, [2]) && Listing(v, [2, INVALID]) == Stop
  {
    hide FirstSector, Listing, FullDirectory;
    v := Volume(0, 1, 1, 0, 1, [Filled(255), Filled(65)], checks);
    SmallDirectory(v, 1);
    StopsPast(v);
  }

  /** The same with thirteen sectors of tables and no overflow checks: the listing goes on
      in the second of them, and what looks like an entry there is listed too. */
  lemma FullDirectoryGoesOn() returns (v: Volume)
    ensures ValidVolume(v) && !v.checks && FullDirectory(v, [2])
    ensures Listing(v, [2, INVALID]).Done? && |Listing(v, [2, INVALID]).value| == 17
  {
    hide FirstSector, EndsAt, Listing, Whole, SomeOf;
    var table: seq<Octet> := seq(SECTOR, i => if i < ENTRY then 65 else 0);
    var z := Filled(0);
    var rest := [z, z, z, z, z, z, z, z, z, z, z];
    v := Volume(0, 1, 13, 0, 1, [Filled(255), table] + rest + [Filled(65)], false);
    assert v.sectors[0] == Filled(255) && v.sectors[1] == table && v.sectors[13] == Filled(65);
    assert FatEntry(v, 2) == Some(0xFFFF);
    SmallDirectory(v, 13);
    FullDirectoryIs(v, [2]);
    assert [2] + [INVALID] == [2, INVALID];
    SecondEntryEnds(v, table);
    OneFull(v);
  }

  lemma SecondEntryEnds(v: Volume, table: seq<Octet>)
    requires ValidVolume(v) && !v.checks && v.sectorsPerCluster == 1 && FirstDataSector(v) == 13
    requires |v.sectors| == 14 && v.sectors[1] == table && |table| == SECTOR
    requires forall i :: 0 <= i < SECTOR ==> table[i] == if i < ENTRY then 65 else 0
    ensures EndsAt(v, INVALID, 1) && |SomeOf(v, INVALID, 1)| == 1
  {
    hide FirstSector, ValidAt;
    WrappedSector(v);
    assert FirstSector(v, INVALID) == Done(1);
    TwoEntries(v, table);
  }

  lemma TwoEntries(v: Volume, table: seq<Octet>)
    requires ValidVolume(v) && |v.sectors| > 1 && v.sectors[1] == table && |table| == SECTOR
    requires forall i :: 0 <= i < SECTOR ==> table[i] == if i < ENTRY then 65 else 0
    ensures ValidAt(v, 1, 0) && !ValidAt(v, 1, 1)
  {
    hide Unpack, DoubleWord, Word;
    assert EntryAt(v, 1, 0) == Parse(table[0..32]) && EntryAt(v, 1, 1) == Parse(table[32..64]);
    assert table[0..32][..11][0] == 65;
    assert table[32..64][..11][0] == 0 && table[32..64][..11][8] == 0;
  }

  lemma OneFull(v: Volume)
    requires ValidVolume(v) && v.sectorsPerCluster == 1
    ensures |Whole(v, [2])| == 16
  {
    FirstSectorIs(v, 2);
    var chain := [2];
    assert chain[1..] == [] && Whole(v, []) == [];
  }

  lemma BehindDeleted(v: Volume, sector: seq<Octet>, name: seq<Octet>)
    requires ValidVolume(v) && v.reserved == 0 && v.fatCount == 1 && v.sectorsPerFat == 1 && v.rootEntries == 16
    requires |v.sectors| == 2 && v.sectors[1] == sector && |sector| == SECTOR
    requires sector[0] == 0xE5 && sector[32..43] == name
    ensures Present(v, 1, 1) && EntryAt(v, 1, 1).name == name && Finds(RootListing(v), name, Err)
  {
    hide EntryAt, RootListing, Finds;
    FatLayout.NameOfEntry(v, 1, 1);
    FatLayout.DeletedHides(v, 0, name);
  }

  /** The root directory begins with a deleted entry; the entry "APP" after it is not found. */
  lemma HiddenBehindDeleted(checks: bool) returns (v: Volume)
    ensures ValidVolume(v) && FirstRootSector(v) == 1 && Present(v, 1, 1)
    ensures EntryAt(v, 1, 1).name == Eleven([0x41, 0x50, 0x50], [])
    ensures Finds(RootListing(v), Eleven([0x41, 0x50, 0x50], []), Err)
  {
    hide EntryAt, RootListing, Finds;
    var name := Eleven([0x41, 0x50, 0x50], []);
    var sector := Filled(0xE5)[..32] + name + Filled(0)[43..];
    v := Volume(0, 1, 1, 16, 1, [Filled(0), sector], checks);
    assert sector[32..43] == name;
    BehindDeleted(v, sector, name);
  }

  /** Eight root entries are half a sector, and that sector is also the first of the data. */
  lemma RootInData(checks: bool) returns (v: Volume)
    ensures ValidVolume(v) && v.rootEntries == 8
    ensures FirstSector(v, ROOT_DIR) == FirstSector(v, 2) == Done(1)
  {
    v := Volume(0, 1, 1, 8, 1, [Filled(0), Filled(0)], checks);
    FirstSectorIs(v, 2);
  }

  /** An asterisk is refused before the last dot and taken after it. */
  lemma StarInExtension()
    ensures ParseName([0x2A, 0x2E, 0x41]).None? && ParseName([0x41, 0x2E, 0x2A]).Some?
  {
    hide ParseName;
    var star: seq<Octet>, ext: seq<Octet> := [0x2A, 0x2E, 0x41], [0x41, 0x2E, 0x2A];
    ParseNameIs(star, 1);
    assert Refused(star[0]);
    ParseNameIs(ext, 1);
    assert !Refused(ext[0]);
  }
}
