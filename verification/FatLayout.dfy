/** Where everything lies on a volume, from the fields of its parameter block alone. */
module FatLayout {
  import opened Basics
  import opened Fat16
  import opened FatNames
  import opened FatDirectories

  function Times(a: nat, b: nat): nat { a * b }

  /** The first sector after all copies of the table. */
  function RootSector(v: Volume): nat { v.reserved + Times(v.fatCount, v.sectorsPerFat) }

  /** What a sector is for: before the tables, sector `s` of copy `t` of the table,
      sector `s` of the root directory, or sector `s` of cluster `c`. */
  datatype Region = Before | Table(t: nat, s: nat) | Root(s: nat) | Data(c: Cluster, s: nat)

  /** Sector `n` of the partition is that one. */
  predicate Is(v: Volume, n: nat, r: Region) {
    var root := v.reserved + v.fatCount * v.sectorsPerFat;
    match r
    case Before => n < v.reserved
    case Table(t, s) => t < v.fatCount && s < v.sectorsPerFat && n == v.reserved + t * v.sectorsPerFat + s
    case Root(s) => s < v.rootEntries / 16 && n == root + s
    case Data(c, s) =>
      2 <= c && s < v.sectorsPerCluster && n == root + v.rootEntries / 16 + (c - 2) * v.sectorsPerCluster + s
  }

  lemma Multiples(a: nat, b: nat, n: nat)
    requires a < b
    ensures a * n + n <= b * n
  {
    assert (a + 1) * n <= b * n by { Products(a + 1, b, n, n); }
  }

  lemma SameQuotient(a: nat, r: nat, b: nat, s: nat, n: nat)
    requires r < n && s < n && a * n + r == b * n + s
    ensures a == b && r == s
  {
    if a < b {
      Multiples(a, b, n);
    } else if b < a {
      Multiples(b, a, n);
    }
  }

  lemma Split(x: nat, n: nat) returns (q: nat, r: nat)
    requires n > 0
    ensures x == q * n + r && r < n
  {
    q, r := x / n, x % n;
  }

  lemma QuotientBelow(q: nat, r: nat, m: nat, n: nat)
    requires q * n + r < m * n
    ensures q < m
  {
    if m <= q {
      Products(m, q, n, n);
    }
  }

  /** Every copy of the table lies whole below the root directory, and the last sector of
      the last one directly before it. */
  lemma TablesLie(v: Volume, t: nat, s: nat)
    requires t < v.fatCount && s < v.sectorsPerFat
    ensures v.reserved + t * v.sectorsPerFat + s < FirstRootSector(v)
    ensures v.reserved + t * v.sectorsPerFat + s + 1 == FirstRootSector(v) <==>
              t == v.fatCount - 1 && s == v.sectorsPerFat - 1
  {
    Multiples(t, v.fatCount, v.sectorsPerFat);
    if t + 1 < v.fatCount {
      Multiples(t, t + 1, v.sectorsPerFat);
      Multiples(t + 1, v.fatCount, v.sectorsPerFat);
    } else {
      assert v.fatCount * v.sectorsPerFat == t * v.sectorsPerFat + v.sectorsPerFat;
    }
  }

  lemma DataIs(v: Volume, n: nat) returns (c: Cluster, s: nat)
    requires v.sectorsPerCluster > 0 && n >= v.reserved + v.fatCount * v.sectorsPerFat + v.rootEntries / 16
    ensures Is(v, n, Data(c, s))
  {
    var q;
    q, s := Split(n - (v.reserved + v.fatCount * v.sectorsPerFat + v.rootEntries / 16), v.sectorsPerCluster);
    c := q + 2;
  }

  lemma TableIs(v: Volume, n: nat) returns (t: nat, s: nat)
    requires v.reserved <= n < v.reserved + v.fatCount * v.sectorsPerFat
    ensures Is(v, n, Table(t, s))
  {
    assert v.sectorsPerFat > 0;
    t, s := Split(n - v.reserved, v.sectorsPerFat);
    QuotientBelow(t, s, v.fatCount, v.sectorsPerFat);
  }

  /** Every sector is for something. */
  lemma EverySector(v: Volume, n: nat) returns (r: Region)
    requires ValidVolume(v)
    ensures Is(v, n, r)
  {
    var root := v.reserved + v.fatCount * v.sectorsPerFat;
    if n < v.reserved {
      r := Before;
    } else if n < root {
      var t, s := TableIs(v, n);
      r := Table(t, s);
    } else if n < root + v.rootEntries / 16 {
      r := Root(n - root);
    } else {
      var c, s := DataIs(v, n);
      r := Data(c, s);
    }
  }

  /** The stretch that a region lies in. */
  lemma Bounds(v: Volume, n: nat, r: Region)
    requires Is(v, n, r)
    ensures var root := v.reserved + v.fatCount * v.sectorsPerFat;
            match r
            case Before => n < v.reserved
            case Table(_, _) => v.reserved <= n < root
            case Root(_) => root <= n < root + v.rootEntries / 16
            case Data(_, _) => root + v.rootEntries / 16 <= n
  {
    if r.Table? {
      TablesLie(v, r.t, r.s);
    } else if r.Data? {
      assert (r.c - 2) * v.sectorsPerCluster >= 0;
    }
  }

  /** And for one thing only: no two copies of the table, no two clusters, and none of
      these and the root directory, have a sector in common. */
  lemma OneRegion(v: Volume, n: nat, a: Region, b: Region)
    requires Is(v, n, a) && Is(v, n, b)
    ensures a == b
  {
    hide Is;
    Bounds(v, n, a);
    Bounds(v, n, b);
    if a.Table? && b.Table? {
      SameTable(v, n, a, b);
    } else if a.Data? && b.Data? {
      SameCluster(v, n, a, b);
    } else {
      SameRoot(v, n, a, b);
    }
  }

  lemma SameTable(v: Volume, n: nat, a: Region, b: Region)
    requires Is(v, n, a) && Is(v, n, b) && a.Table? && b.Table?
    ensures a == b
  {
    SameQuotient(a.t, a.s, b.t, b.s, v.sectorsPerFat);
  }

  lemma SameCluster(v: Volume, n: nat, a: Region, b: Region)
    requires Is(v, n, a) && Is(v, n, b) && a.Data? && b.Data?
    ensures a == b
  {
    SameQuotient(a.c - 2, a.s, b.c - 2, b.s, v.sectorsPerCluster);
  }

  lemma SameRoot(v: Volume, n: nat, a: Region, b: Region)
    requires Is(v, n, a) && Is(v, n, b)
    ensures a.Root? && b.Root? ==> a == b
  {
  }

  /** The sectors that reading goes to are those of the cluster, and of no table and not of
      the root directory. */
  lemma ClusterLies(v: Volume, c: Cluster, s: nat)
    requires ValidVolume(v) && 2 <= c < 0xFFF6 && s < v.sectorsPerCluster
    ensures FirstSector(v, c).Done? && Is(v, FirstSector(v, c).value + s, Data(c, s))
  {
    FirstSectorIs(v, c);
  }

  /** Byte `i` of a file, from the fields of the volume and the clusters of the file. */
  function FileByte(v: Volume, chain: seq<Cluster>, i: nat): Octet
    requires ValidVolume(v) && i / 512 / v.sectorsPerCluster < |chain|
  {
    var c := chain[i / 512 / v.sectorsPerCluster];
    var n := v.reserved + v.fatCount * v.sectorsPerFat + v.rootEntries / 16
             + (c - 2) * v.sectorsPerCluster + i / 512 % v.sectorsPerCluster;
    if 0 <= n < |v.sectors| then v.sectors[n][i % 512] else 0
  }

  lemma {:induction false} SectorsCount(v: Volume, chain: seq<Cluster>)
    ensures |FileSectors(v, chain)| == Times(|chain|, v.sectorsPerCluster)
  {
    hide FirstSector;
    if chain != [] {
      SectorsCount(v, chain[1..]);
      assert Times(|chain|, v.sectorsPerCluster) == v.sectorsPerCluster + Times(|chain[1..]|, v.sectorsPerCluster);
    }
  }

  lemma FileByteIs(v: Volume, chain: seq<Cluster>, i: nat)
    requires ValidVolume(v) && IsChain(v, chain) && i < |FileSectors(v, chain)| * 512
    ensures i / 512 / v.sectorsPerCluster < |chain|
    ensures ByteOf(v, FileSectors(v, chain), i) == FileByte(v, chain, i)
  {
    hide FirstSector, IsChain, FileSectors, FirstDataSector, FileByte;
    var n := i / 512;
    var j, s := SectorIndex(v, chain, n);
    SectorOfCluster(v, chain, j, s);
    DataBegins(v);
    FileByteAt(v, chain, i, j, s);
  }

  lemma SectorIndex(v: Volume, chain: seq<Cluster>, n: nat) returns (j: nat, s: nat)
    requires ValidVolume(v) && n < |FileSectors(v, chain)|
    ensures j == n / v.sectorsPerCluster < |chain| && s == n % v.sectorsPerCluster < v.sectorsPerCluster
    ensures n == j * v.sectorsPerCluster + s
  {
    hide FileSectors;
    SectorsCount(v, chain);
    j, s := n / v.sectorsPerCluster, n % v.sectorsPerCluster;
    QuotientBelow(j, s, |chain|, v.sectorsPerCluster);
  }

  lemma FileByteAt(v: Volume, chain: seq<Cluster>, i: nat, j: nat, s: nat)
    requires ValidVolume(v) && j == i / 512 / v.sectorsPerCluster < |chain| && s == i / 512 % v.sectorsPerCluster
    ensures var n := v.reserved + v.fatCount * v.sectorsPerFat + v.rootEntries / 16
                     + (chain[j] - 2) * v.sectorsPerCluster + s;
            FileByte(v, chain, i) == if 0 <= n < |v.sectors| then v.sectors[n][i % 512] else 0
  {
  }

  /** A first read returns byte for byte what the volume holds in the clusters of the
      file, counted from where the data begins. */
  lemma FreshReadBytes(v: Volume, size: nat, chain: seq<Cluster>, want: nat)
    requires FileOn(v, chain, size)
    ensures var r := ReadOnce(v, size, Handle(0, chain[0]), want);
            && r.outcome.Done? && |r.bytes| == Min(want, size)
            && forall i :: 0 <= i < |r.bytes| ==>
                 i / 512 / v.sectorsPerCluster < |chain| && r.bytes[i] == FileByte(v, chain, i)
  {
    hide ReadOnce, FileByte, ByteOf, FileSectors, IsChain;
    FreshRead(v, size, chain, want);
    var r := ReadOnce(v, size, Handle(0, chain[0]), want);
    forall i | 0 <= i < |r.bytes|
      ensures i / 512 / v.sectorsPerCluster < |chain| && r.bytes[i] == FileByte(v, chain, i)
    {
      FileByteIs(v, chain, i);
      assert r.bytes[i] == ByteOf(v, FileSectors(v, chain), 0 + i);
    }
  }

  /** On a volume with two tables of 200 sectors and 512 root entries a file on cluster 2
      is read from sector 436, and the root directory lies in sectors 404 to 435. */
  lemma UsualVolume(v: Volume, size: nat, want: nat)
    requires ValidVolume(v) && v.reserved == 4 && v.fatCount == 2 && v.sectorsPerFat == 200 && v.rootEntries == 512
    requires |v.sectors| > 440 && 0 < size <= 512 && v.sectorsPerCluster <= 4
    ensures var r := ReadOnce(v, size, Handle(0, 2), want);
            r.outcome.Done? && r.bytes == v.sectors[436][..Min(want, size)]
    ensures FirstSector(v, ROOT_DIR) == Done(404) && Is(v, 435, Root(31)) && Is(v, 436, Data(2, 0))
  {
    hide ReadOnce, FileSectors;
    var chain := [2];
    assert IsChain(v, chain) by { assert chain[1..] == []; }
    OnTheVolume(v);
    FreshReadBytes(v, size, chain, want);
    var r := ReadOnce(v, size, Handle(0, 2), want);
    forall i | 0 <= i < |r.bytes| ensures r.bytes[i] == v.sectors[436][i] {
      assert i / 512 == 0 && 0 / v.sectorsPerCluster == 0 && 0 % v.sectorsPerCluster == 0;
    }
  }

  lemma OnTheVolume(v: Volume)
    requires ValidVolume(v) && v.reserved == 4 && v.fatCount == 2 && v.sectorsPerFat == 200 && v.rootEntries == 512
    requires |v.sectors| > 440 && v.sectorsPerCluster <= 4
    ensures OnVolume(v, FileSectors(v, [2])) && 512 <= |FileSectors(v, [2])| * 512
  {
    FirstSectorIs(v, 2);
    var chain := [2];
    assert chain[1..] == [] && FileSectors(v, []) == [];
  }

  // ---------------------------------------------------------------------------
  // Directories
  // ---------------------------------------------------------------------------

  /** Every entry that a listing of the root directory can visit lies before the data
      exactly if the entries fill whole sectors; the last one then directly before. */
  lemma RootLies(v: Volume)
    requires ValidVolume(v)
    ensures FirstSector(v, ROOT_DIR) == Done(v.reserved + v.fatCount * v.sectorsPerFat) && FirstSector(v, 2).Done?
    ensures (forall i: nat :: i < v.rootEntries ==> FirstRootSector(v) + SectorIn(i) < FirstSector(v, 2).value) <==>
              v.rootEntries % 16 == 0
    ensures v.rootEntries > 0 && v.rootEntries % 16 == 0 ==>
              FirstRootSector(v) + SectorIn(v.rootEntries - 1) + 1 == FirstSector(v, 2).value
  {
    FirstSectorIs(v, 2);
    if v.rootEntries % 16 != 0 {
      assert SectorIn(v.rootEntries - 1) == v.rootEntries / 16;
    }
  }

  /** The sector of entry `i`, counted from that of the first. */
  function SectorIn(i: nat): nat { i / 16 }

  /** Entry `i` of the run from sector `first` on ends a listing: it is deleted, whatever
      comes after it, or it is the end mark. */
  predicate Closes(v: Volume, first: nat, i: nat) {
    && first + i / 16 < |v.sectors|
    && var b, at := v.sectors[first + i / 16], i % 16 * 32;
       at + 32 <= |b| && (b[at] == 0xE5 || (b[at] == 0 && b[at + 8] == 0))
  }

  predicate Open(v: Volume, first: nat, i: nat) {
    first + i / 16 < |v.sectors| && !Closes(v, first, i)
  }

  lemma EntryBytes(v: Volume, first: nat, i: nat)
    requires ValidVolume(v) && first + i / 16 < |v.sectors|
    ensures Present(v, first, i) && |v.sectors[first + i / 16]| == 512
    ensures ValidAt(v, first, i) <==> !Closes(v, first, i)
    ensures EntryAt(v, first, i) == Parse(v.sectors[first + i / 16][i % 16 * 32..i % 16 * 32 + 32])
  {
    hide Unpack, DoubleWord, Word;
    var b, at := v.sectors[first + i / 16], i % 16 * 32;
    assert b[at..at + 32][..11][0] == b[at] && b[at..at + 32][..11][8] == b[at + 8];
  }

  /** `es` are the first entries of the run, as they stand in the sectors. */
  ghost predicate AreEntries(v: Volume, first: nat, es: seq<DirEntry>)
    requires ValidVolume(v)
  {
    forall i :: 0 <= i < |es| ==>
      && first + i / 16 < |v.sectors|
      && es[i] == Parse(v.sectors[first + i / 16][i % 16 * 32..i % 16 * 32 + 32])
  }

  lemma EntriesBytes(v: Volume, first: nat, es: seq<DirEntry>)
    requires ValidVolume(v)
    requires forall i :: 0 <= i < |es| ==> Present(v, first, i) && es[i] == EntryAt(v, first, i)
    ensures AreEntries(v, first, es)
  {
    hide EntryAt, Parse, ValidAt, Closes;
    forall i: nat | i < |es|
      ensures first + i / 16 < |v.sectors| &&
              es[i] == Parse(v.sectors[first + i / 16][i % 16 * 32..i % 16 * 32 + 32])
    {
      assert Present(v, first, i);
      EntryBytes(v, first, i);
    }
  }

  lemma OpenOrClosed(v: Volume, first: nat, i: nat)
    requires ValidVolume(v)
    ensures Open(v, first, i) <==> ValidAt(v, first, i)
    ensures Closes(v, first, i) <==> Present(v, first, i) && !ValidAt(v, first, i)
  {
    hide EntryAt, IsValid, Parse;
    if first + i / 16 < |v.sectors| {
      EntryBytes(v, first, i);
    }
  }

  lemma VisitFromStart(v: Volume, first: nat, n: nat) returns (x: nat)
    requires ValidVolume(v)
    ensures x <= n && (forall i :: 0 <= i < x ==> ValidAt(v, first, i)) && (x < n ==> !ValidAt(v, first, x))
    ensures var r := Visit(v, first, n, 0);
            && (r.Full? <==> x == n) && (r.Ended? <==> x < n && Present(v, first, x))
            && (!r.Missing? ==> |r.entries| == x && AreEntries(v, first, r.entries))
  {
    hide EntryAt, ValidAt, Visit, Present, AreEntries;
    x := VisitIs(v, first, n, 0);
    var r := Visit(v, first, n, 0);
    if !r.Missing? {
      assert forall i :: 0 <= i < x ==> Present(v, first, i) && r.entries[i - 0] == EntryAt(v, first, i);
      EntriesBytes(v, first, r.entries);
    }
  }

  /** On the bytes: entries are seen up to the first that is deleted or the end mark, to
      the end of the run, or to a sector that is not there. */
  lemma VisitBytes(v: Volume, first: nat, n: nat, k: nat)
    requires ValidVolume(v) && k <= n && forall i :: 0 <= i < k ==> Open(v, first, i)
    ensures var r := Visit(v, first, n, 0);
            && (k == n ==> r.Full? && |r.entries| == n && AreEntries(v, first, r.entries))
            && (k < n && Closes(v, first, k) ==> r.Ended? && |r.entries| == k && AreEntries(v, first, r.entries))
            && (k < n && first + k / 16 >= |v.sectors| ==> r.Missing?)
  {
    hide Closes, Visit, Open, ValidAt, AreEntries, Present;
    var x := VisitFromStart(v, first, n);
    OpenOrClosed(v, first, x);
    OpenOrClosed(v, first, k);
    NotThere(v, first, k);
  }

  lemma NotThere(v: Volume, first: nat, i: nat)
    requires ValidVolume(v)
    ensures Present(v, first, i) <==> first + i / 16 < |v.sectors|
    ensures ValidAt(v, first, i) ==> Present(v, first, i)
  {
    hide EntryAt;
  }

  /** The root directory, on the bytes of its sectors: exactly the entries before the first
      that is deleted or the end mark are listed. */
  lemma RootBytes(v: Volume, k: nat)
    requires ValidVolume(v) && k <= v.rootEntries
    requires var root := RootSector(v); forall i :: 0 <= i < k ==> Open(v, root, i)
    ensures var root := RootSector(v);
            if k == v.rootEntries || Closes(v, root, k) then
              RootListing(v).Done? && |RootListing(v).value| == k && AreEntries(v, root, RootListing(v).value)
            else root + k / 16 >= |v.sectors| ==> RootListing(v) == Stop
  {
    hide Closes, AreEntries, Visit;
    VisitBytes(v, RootSector(v), v.rootEntries, k);
  }

  /** So an entry behind a deleted one is not found: a name that none of the entries
      before has is an error, also if an entry after it has that name. */
  lemma DeletedHides(v: Volume, k: nat, name: seq<Octet>)
    requires ValidVolume(v) && k < v.rootEntries
    requires var root := RootSector(v);
             && (forall i :: 0 <= i < k ==> Open(v, root, i) && EntryAt(v, root, i).name != name)
             && root + k / 16 < |v.sectors| && k % 16 * 32 + 32 <= |v.sectors[root + k / 16]|
             && v.sectors[root + k / 16][k % 16 * 32] == 0xE5
    ensures Finds(RootListing(v), name, Err)
  {
    hide Parse, RootListing;
    var root := RootSector(v);
    RootBytes(v, k);
    var es := RootListing(v).value;
    forall i | 0 <= i < k ensures es[i].name != name {
      EntryBytes(v, root, i);
    }
  }

  /** The first sector of a cluster, from the fields of the volume. */
  function SectorOf(v: Volume, c: Cluster): nat
    requires 2 <= c
  {
    RootSector(v) + v.rootEntries / 16 + Times(c - 2, v.sectorsPerCluster)
  }

  /** Sixteen entries to each sector of a cluster. */
  function Room(v: Volume): nat { v.sectorsPerCluster * 16 }

  /** The place in the listing of entry `i` of cluster `x` of a directory. */
  function PlaceOf(v: Volume, x: nat, i: nat): nat { Times(x, Room(v)) + i }

  /** All entries of a cluster are in use. */
  ghost predicate AllOpen(v: Volume, c: Cluster)
    requires 2 <= c
  {
    forall i :: 0 <= i < Room(v) ==> Open(v, SectorOf(v, c), i)
  }

  /** Entry `k` of the cluster ends the listing, and none before it does. */
  ghost predicate ClosesIn(v: Volume, c: Cluster, k: nat)
    requires 2 <= c
  {
    && k < Room(v) && Closes(v, SectorOf(v, c), k)
    && forall i :: 0 <= i < k ==> Open(v, SectorOf(v, c), i)
  }

  lemma ClusterBytes(v: Volume, c: Cluster, k: nat)
    requires ValidVolume(v) && 2 <= c < 0xFFF6
    ensures FirstSector(v, c) == Done(SectorOf(v, c)) && PerCluster(v) == Room(v)
    ensures FullCluster(v, c) <==> AllOpen(v, c)
    ensures EndsAt(v, c, k) <==> ClosesIn(v, c, k)
  {
    hide Open, Closes, ValidAt, Present;
    FirstSectorIs(v, c);
    var first := SectorOf(v, c);
    forall i: nat ensures Open(v, first, i) <==> ValidAt(v, first, i) {
      OpenOrClosed(v, first, i);
    }
    OpenOrClosed(v, first, k);
  }

  ghost predicate InRange(chain: seq<Cluster>) { forall x :: 0 <= x < |chain| ==> 2 <= chain[x] < 0xFFF6 }

  lemma {:induction false} WholeLength(v: Volume, chain: seq<Cluster>)
    requires ValidVolume(v) && InRange(chain)
    ensures |Whole(v, chain)| == Times(|chain|, Room(v))
    decreases |chain|
  {
    hide EntryAt, FirstSector, SectorOf, Room, PerCluster;
    if chain != [] {
      ClusterBytes(v, chain[0], 0);
      WholeLength(v, chain[1..]);
      assert Times(|chain|, Room(v)) == Room(v) + Times(|chain[1..]|, Room(v));
    }
  }

  lemma WholeUnfolds(v: Volume, chain: seq<Cluster>)
    requires ValidVolume(v) && InRange(chain) && chain != []
    ensures Whole(v, chain) == Taken(v, SectorOf(v, chain[0]), Room(v)) + Whole(v, chain[1..])
    ensures InRange(chain[1..])
  {
    hide EntryAt, FirstSector, SectorOf, Taken;
    ClusterBytes(v, chain[0], 0);
  }

  lemma {:induction false} WholeAt(v: Volume, chain: seq<Cluster>, x: nat, i: nat)
    requires ValidVolume(v) && InRange(chain) && x < |chain| && i < Room(v) && Present(v, SectorOf(v, chain[x]), i)
    ensures PlaceOf(v, x, i) < |Whole(v, chain)|
    ensures Whole(v, chain)[PlaceOf(v, x, i)] == EntryAt(v, SectorOf(v, chain[x]), i)
    decreases |chain|
  {
    hide EntryAt, Present, SectorOf, Room, Whole;
    WholeUnfolds(v, chain);
    if x == 0 {
      assert PlaceOf(v, 0, i) == i;
    } else {
      WholeAt(v, chain[1..], x - 1, i);
      assert PlaceOf(v, x, i) == Room(v) + PlaceOf(v, x - 1, i);
    }
  }

  /** The `i`-th entry of cluster `x` of a directory. */
  ghost predicate ListedAt(v: Volume, chain: seq<Cluster>, es: seq<DirEntry>, x: nat, i: nat)
    requires ValidVolume(v) && x < |chain| && 2 <= chain[x]
  {
    var n := SectorOf(v, chain[x]) + i / 16;
    && PlaceOf(v, x, i) < |es| && n < |v.sectors|
    && es[PlaceOf(v, x, i)] == Parse(v.sectors[n][i % 16 * 32..i % 16 * 32 + 32])
  }

  lemma OneDirectoryEnd(v: Volume, chain: seq<Cluster>, j: nat, k: nat, j': nat, k': nat)
    requires ValidVolume(v) && DirectoryEnds(v, chain, j, k) && DirectoryEnds(v, chain, j', k')
    ensures j == j' && k == k'
  {
    hide FullCluster, EndsAt;
    if j < j' {
      FullHasNoEnd(v, chain[j], k);
    } else if j' < j {
      FullHasNoEnd(v, chain[j'], k');
    } else {
      OneEnd(v, chain[j], k, k');
    }
  }

  lemma ListedHere(v: Volume, chain: seq<Cluster>, j: nat, k: nat, x: nat, i: nat)
    requires ValidVolume(v) && x <= j < |chain| && InRange(chain) && k <= Room(v)
    requires i < (if x < j then Room(v) else k) && Open(v, SectorOf(v, chain[x]), i)
    ensures ListedAt(v, chain, UpTo(v, chain, j, k), x, i)
  {
    hide EntryAt, Parse, Room, Closes, FirstSector;
    var first := SectorOf(v, chain[x]);
    EntryBytes(v, first, i);
    ClusterBytes(v, chain[j], k);
    WholeLength(v, chain[..j]);
    if x < j {
      assert chain[..j][x] == chain[x];
      WholeAt(v, chain[..j], x, i);
    }
  }

  /** Any other directory, on the bytes of its clusters: full clusters and then one in which
      entry `k` is deleted or the end mark are listed entry by entry up to that one. */
  lemma DirectoryBytes(v: Volume, chain: seq<Cluster>, j: nat, k: nat)
    requires ValidVolume(v) && j < |chain| && InRange(chain)
    requires (forall x :: 0 <= x < j ==> AllOpen(v, chain[x])) && ClosesIn(v, chain[j], k)
    ensures Listing(v, chain).Done? && |Listing(v, chain).value| == PlaceOf(v, j, k)
    ensures forall x, i :: 0 <= x <= j && 0 <= i < (if x < j then Room(v) else k) ==>
              ListedAt(v, chain, Listing(v, chain).value, x, i)
  {
    hide Listing, UpTo, DirectoryEnds, ListedAt, FullCluster, EndsAt, SectorOf, Closes, Open;
    forall x | 0 <= x < j ensures FullCluster(v, chain[x]) {
      ClusterBytes(v, chain[x], 0);
    }
    ClusterBytes(v, chain[j], k);
    EndsThere(v, chain, j, k);
    var j', k' := ListingIs(v, chain);
    if DirectoryEnds(v, chain, j', k') {
      OneDirectoryEnd(v, chain, j, k, j', k');
    }
    ListedLength(v, chain, j, k);
    forall x, i | 0 <= x <= j && 0 <= i < (if x < j then Room(v) else k)
      ensures ListedAt(v, chain, UpTo(v, chain, j, k), x, i)
    {
      ListedHere(v, chain, j, k, x, i);
    }
  }

  lemma EndsThere(v: Volume, chain: seq<Cluster>, j: nat, k: nat)
    requires ValidVolume(v) && j < |chain| && (forall x :: 0 <= x < j ==> FullCluster(v, chain[x])) && EndsAt(v, chain[j], k)
    ensures DirectoryEnds(v, chain, j, k)
  {
  }

  lemma ListedLength(v: Volume, chain: seq<Cluster>, j: nat, k: nat)
    requires ValidVolume(v) && j < |chain| && InRange(chain)
    ensures |UpTo(v, chain, j, k)| == PlaceOf(v, j, k)
  {
    hide FirstSector, EntryAt;
    WholeLength(v, chain[..j]);
    ClusterBytes(v, chain[j], k);
  }

  /** The eleven bytes of the name of entry `i`. */
  function NameAt(v: Volume, first: nat, i: nat): seq<Octet>
    requires ValidVolume(v)
  {
    if first + i / 16 < |v.sectors| then v.sectors[first + i / 16][i % 16 * 32..i % 16 * 32 + 11] else []
  }

  lemma NameOfEntry(v: Volume, first: nat, i: nat)
    requires ValidVolume(v) && first + i / 16 < |v.sectors|
    ensures Present(v, first, i) && EntryAt(v, first, i).name == NameAt(v, first, i)
  {
    hide Unpack, DoubleWord, Word;
    var b, at := v.sectors[first + i / 16], i % 16 * 32;
    assert b[at..at + 32][..11] == b[at..at + 11];
  }

  /** Entry `i` is the last of the first `k` with the name `n`. */
  ghost predicate LastWith(v: Volume, first: nat, k: nat, i: nat, n: seq<Octet>)
    requires ValidVolume(v)
  {
    && i < k && (forall j :: 0 <= j < k ==> Open(v, first, j))
    && NameAt(v, first, i) == n
    && forall j :: i < j < k ==> NameAt(v, first, j) != n
  }

  lemma FoundHere(v: Volume, first: nat, es: seq<DirEntry>, i: nat, n: seq<Octet>, r: Outcome<DirEntry>)
    requires ValidVolume(v) && AreEntries(v, first, es) && LastWith(v, first, |es|, i, n)
    ensures Present(v, first, i)
    ensures Finds(Done(es), n, r) <==> r == Done(EntryAt(v, first, i))
  {
    hide EntryAt, Parse, NameAt, Closes;
    forall j: nat | j < |es| ensures es[j] == EntryAt(v, first, j) && es[j].name == NameAt(v, first, j) {
      assert Open(v, first, j);
      NameOfEntry(v, first, j);
      EntryBytes(v, first, j);
    }
    assert LastNamed(es, n, i);
  }

  /** From the text to the bytes: a proper name of an entry, in capitals or small letters,
      finds in the root directory exactly the last entry with its eleven bytes, of those
      before the first that is deleted or the end mark. */
  lemma FoundByText(v: Volume, k: nat, i: nat, base: seq<Octet>, ext: seq<Octet>, t: seq<Octet>, r: Outcome<DirEntry>)
    requires ValidVolume(v) && Proper(base, ext) && SameLetters(t, Shown(base, ext)) && (ext != [] || DOT !in base)
    requires var root := RootSector(v);
             && k <= v.rootEntries && (k == v.rootEntries || Closes(v, root, k))
             && LastWith(v, root, k, i, Eleven(base, ext))
    ensures var root := RootSector(v);
            && Present(v, root, i) && ParseName(t).Some?
            && (Finds(RootListing(v), ParseName(t).value, r) <==> r == Done(EntryAt(v, root, i)))
  {
    hide SameLetters, Shown, Eleven, ParseName, RootListing, Finds, EntryAt, AreEntries, Closes;
    var root := RootSector(v);
    NamesRoundTrip(base, ext, t);
    RootBytes(v, k);
    FoundHere(v, root, RootListing(v).value, i, Eleven(base, ext), r);
  }

  /** The fields of an entry, byte by byte; with an unknown attribute bit there are none. */
  lemma FieldsOfEntry(b: seq<Octet>)
    requires |b| == 32
    ensures var e := Parse(b);
            && e.name == b[0..11]
            && e.attributes == (if b[11] / 64 == 0 then b[11] else 0)
            && e.cluster == b[26] as int + b[27] as int * 0x100 + b[20] as int * 0x1_0000 + b[21] as int * 0x100_0000
            && e.size == b[28] as int + b[29] as int * 0x100 + b[30] as int * 0x1_0000 + b[31] as int * 0x100_0000
  {
  }

  /** The calendar: the 29th of February is a day of the leap years of the Gregorian calendar,
      which in the years that an entry can name are those divisible by four except 2100. */
  lemma LeapDays(year: nat, hour: nat, minute: nat, half: nat)
    requires 1980 <= year < 2108 && hour < 24 && minute < 60 && half < 30
    ensures var time := ((year - 1980) * 512 + 2 * 32 + 29) * 65536 + hour * 2048 + minute * 32 + half;
            Unpack(time) == if year % 4 == 0 && year != 2100 then Stamp(year, 2, 29, hour, minute, 2 * half) else Epoch()
  {
    DayFields(year - 1980, 2, 29);
    ClockFields(hour, minute, half);
    Halves(hour * 2048 + minute * 32 + half, (year - 1980) * 512 + 2 * 32 + 29);
  }

  /** And the last day of any other month: thirty days have April, June, September, November. */
  lemma LastDays(year: nat, month: nat, day: nat)
    requires 1980 <= year < 2108 && 1 <= month <= 12 && month != 2 && 1 <= day < 32
    ensures var time := ((year - 1980) * 512 + month * 32 + day) * 65536;
            Unpack(time) == if day == 31 && month in {4, 6, 9, 11} then Epoch() else Stamp(year, month, day, 0, 0, 0)
  {
    DayFields(year - 1980, month, day);
    ClockFields(0, 0, 0);
    Halves(0, (year - 1980) * 512 + month * 32 + day);
  }

  lemma KernelWords(b: seq<Octet>)
    requires b == KernelBytes()
    ensures |b| == 32 && DoubleWord(b, 14) == 0x50d0_be0f && Word(b, 18) == 0x50d0 && DoubleWord(b, 22) == 0x50d0_be0f
    ensures Word(b, 26) == 2 && Word(b, 20) == 0 && DoubleWord(b, 28) == 0xe_e4f0
  {
    assert b[14] == 0x0f && b[15] == 0xbe && b[16] == 0xd0 && b[17] == 0x50;
    assert b[18] == 0xd0 && b[19] == 0x50 && b[20] == 0 && b[21] == 0;
    assert b[22] == 0x0f && b[23] == 0xbe && b[24] == 0xd0 && b[25] == 0x50;
    assert b[26] == 2 && b[27] == 0 && b[28] == 0xf0 && b[29] == 0xe4 && b[30] == 0x0e && b[31] == 0;
  }

  lemma KernelTime()
    ensures Unpack(0x50d0_be0f) == Stamp(2020, 6, 16, 23, 48, 30)
  {
    DayFields(40, 6, 16);
    ClockFields(23, 48, 15);
  }

  lemma KernelDay()
    ensures Unpack(65536 * 0x50d0) == Stamp(2020, 6, 16, 0, 0, 0)
  {
    DayFields(40, 6, 16);
  }

  function KernelBytes(): seq<Octet> {
    [0x4b, 0x45, 0x52, 0x4e, 0x45, 0x4c, 0x20, 0x20, 0x45, 0x4c, 0x46, 0x20, 0x00, 0x00, 0x0f, 0xbe,
     0xd0, 0x50, 0xd0, 0x50, 0x00, 0x00, 0x0f, 0xbe, 0xd0, 0x50, 0x02, 0x00, 0xf0, 0xe4, 0x0e, 0x00]
  }

  /** The entry of the repository's own test, field by field. */
  lemma KernelEntry()
    ensures |KernelBytes()| == 32
    ensures Parse(KernelBytes()) ==
            DirEntry([0x4b, 0x45, 0x52, 0x4e, 0x45, 0x4c, 0x20, 0x20, 0x45, 0x4c, 0x46], 0x20,
                     Stamp(2020, 6, 16, 23, 48, 30), Stamp(2020, 6, 16, 0, 0, 0), Stamp(2020, 6, 16, 23, 48, 30),
                     2, 0xe_e4f0)
  {
    hide Unpack, Word, DoubleWord;
    KernelWords(KernelBytes());
    KernelTime();
    KernelDay();
  }
}
