/** Directories of a FAT16 volume: their entries, traversal block by block and cluster by
    cluster, and lookup. */
module FatDirectories {
  import opened Basics
  import opened Fat16
  import opened FatNames

  const ENTRY: nat := 32
  const ENTRIES_PER_BLOCK: nat := 16

  // ---------------------------------------------------------------------------
  // Dates
  // ---------------------------------------------------------------------------

  datatype Stamp = Stamp(year: nat, month: nat, day: nat, hour: nat, minute: nat, second: nat)

  function Epoch(): Stamp { Stamp(1970, 1, 1, 0, 0, 0) }

  function DaysIn(year: nat, month: nat): nat {
    if month == 2 then (if year % 4 == 0 && (year % 100 != 0 || year % 400 == 0) then 29 else 28)
    else if month == 4 || month == 6 || month == 9 || month == 11 then 30
    else 31
  }

  predicate IsTime(s: Stamp) {
    1 <= s.month <= 12 && 1 <= s.day <= DaysIn(s.year, s.month) && s.hour < 24 && s.minute < 60 && s.second < 60
  }

  /** The fields of the packed form, the day in its upper 16 bits; what is no time is
      taken for the epoch. */
  function Unpack(time: nat): Stamp {
    var date, clock := time / 65536, time % 65536;
    var s := Stamp(date / 512 % 128 + 1980, date / 32 % 16, date % 32, clock / 2048, clock / 32 % 64, clock % 32 * 2);
    if IsTime(s) then s else Epoch()
  }

  function PackedDay(s: Stamp): nat { if s.year < 1980 then 0 else (s.year - 1980) * 512 + s.month * 32 + s.day }

  function PackedClock(s: Stamp): nat { if s.year < 1980 then 0 else s.hour * 2048 + s.minute * 32 + s.second / 2 }

  /** What the packed form can say: no time at all, or one of the years 1980 to 2107 in
      steps of two seconds. */
  predicate Packable(s: Stamp) {
    s == Epoch() || (1980 <= s.year < 2108 && s.second % 2 == 0 && IsTime(s))
  }

  lemma DayFields(year: nat, month: nat, day: nat)
    requires year < 128 && month < 16 && day < 32
    ensures var date := year * 512 + month * 32 + day;
            date < 65536 && date / 512 % 128 == year && date / 32 % 16 == month && date % 32 == day
  {
    var date := year * 512 + month * 32 + day;
    assert date / 32 == year * 16 + month;
  }

  lemma ClockFields(hour: nat, minute: nat, half: nat)
    requires hour < 32 && minute < 64 && half < 32
    ensures var clock := hour * 2048 + minute * 32 + half;
            clock < 65536 && clock / 2048 == hour && clock / 32 % 64 == minute && clock % 32 == half
  {
    var clock := hour * 2048 + minute * 32 + half;
    assert clock / 32 == hour * 64 + minute;
  }

  lemma UnpackUndoesPack(s: Stamp)
    requires Packable(s)
    ensures PackedDay(s) < 65536 && PackedClock(s) < 65536
    ensures Unpack(PackedClock(s) + 65536 * PackedDay(s)) == s
  {
    hide DaysIn;
    if s == Epoch() {
      EpochIsNoTime();
    } else {
      DayIsSmall(s);
      DayFields(s.year - 1980, s.month, s.day);
      ClockFields(s.hour, s.minute, s.second / 2);
      Halves(PackedClock(s), PackedDay(s));
    }
  }

  lemma DayIsSmall(s: Stamp)
    requires IsTime(s)
    ensures s.day < 32
  {
  }

  lemma EpochIsNoTime()
    ensures Unpack(0) == Epoch()
  {
  }

  lemma Halves(low: nat, high: nat)
    requires low < 65536
    ensures (low + 65536 * high) / 65536 == high && (low + 65536 * high) % 65536 == low
  {
  }

  // ---------------------------------------------------------------------------
  // One entry
  // ---------------------------------------------------------------------------

  datatype DirEntry = DirEntry(
    name: seq<Octet>, attributes: Octet, created: Stamp, accessed: Stamp, modified: Stamp, cluster: nat, size: nat)

  function DoubleWord(b: seq<Octet>, at: nat): nat
    requires at + 4 <= |b|
  {
    Word(b, at) + 65536 * Word(b, at + 2)
  }

  /** One unknown attribute bit and all attributes are dropped; of the last access only
      the day is kept. */
  function Parse(b: seq<Octet>): (e: DirEntry)
    requires |b| == ENTRY
    ensures |e.name| == 11
  {
    DirEntry(b[..11], if b[11] < 64 then b[11] else 0,
             Unpack(DoubleWord(b, 14)), Unpack(65536 * Word(b, 18)), Unpack(DoubleWord(b, 22)),
             Word(b, 26) + 65536 * Word(b, 20), DoubleWord(b, 28))
  }

  function Bytes2(x: nat): seq<Octet> { [x % 256, x / 256 % 256] }

  /** The 32 bytes of an entry. */
  function Format(e: DirEntry): seq<Octet> {
    e.name + [e.attributes] + Zeros(2) + Bytes2(PackedClock(e.created)) + Bytes2(PackedDay(e.created)) +
    Bytes2(PackedDay(e.accessed)) + Bytes2(e.cluster / 65536) +
    Bytes2(PackedClock(e.modified)) + Bytes2(PackedDay(e.modified)) +
    Bytes2(e.cluster) + Bytes2(e.size) + Bytes2(e.size / 65536)
  }

  lemma LowBytes(x: nat)
    ensures x % 256 + 256 * (x / 256 % 256) == x % 65536
  {
    var q, r := x / 65536, x % 65536;
    Halves(r, q);
    assert x / 256 == 256 * q + r / 256;
    assert x % 256 == r % 256;
  }

  lemma WordOfBytes(b: seq<Octet>, at: nat, x: nat)
    requires at + 2 <= |b| && b[at..at + 2] == Bytes2(x)
    ensures Word(b, at) == x % 65536
  {
    assert b[at] == b[at..at + 2][0] && b[at + 1] == b[at..at + 2][1];
    LowBytes(x);
  }

  /** Where the words of an entry lie. */
  lemma WordsOfFormat(e: DirEntry)
    requires |e.name| == 11
    ensures var b := Format(e);
            && |b| == ENTRY && b[..11] == e.name && b[11] == e.attributes
            && Word(b, 14) == PackedClock(e.created) % 65536 && Word(b, 16) == PackedDay(e.created) % 65536
            && Word(b, 18) == PackedDay(e.accessed) % 65536
            && Word(b, 22) == PackedClock(e.modified) % 65536 && Word(b, 24) == PackedDay(e.modified) % 65536
            && Word(b, 20) == e.cluster / 65536 % 65536 && Word(b, 26) == e.cluster % 65536
            && Word(b, 28) == e.size % 65536 && Word(b, 30) == e.size / 65536 % 65536
  {
    hide Word, PackedDay, PackedClock;
    var b := Format(e);
    assert b[..11] == e.name && b[11] == e.attributes;
    WordOfBytes(b, 14, PackedClock(e.created));
    WordOfBytes(b, 16, PackedDay(e.created));
    WordOfBytes(b, 18, PackedDay(e.accessed));
    WordOfBytes(b, 20, e.cluster / 65536);
    WordOfBytes(b, 22, PackedClock(e.modified));
    WordOfBytes(b, 24, PackedDay(e.modified));
    WordOfBytes(b, 26, e.cluster);
    WordOfBytes(b, 28, e.size);
    WordOfBytes(b, 30, e.size / 65536);
  }

  /** Parsing undoes formatting, for everything that an entry can hold: known
      attributes, times that can be packed, the last access at midnight. */
  lemma ParseUndoesFormat(e: DirEntry)
    requires |e.name| == 11 && e.cluster < 0x1_0000_0000 && e.size < 0x1_0000_0000 && e.attributes < 64
    requires Packable(e.created) && Packable(e.accessed) && Packable(e.modified) && PackedClock(e.accessed) == 0
    ensures |Format(e)| == ENTRY && Parse(Format(e)) == e
  {
    hide Word, PackedDay, PackedClock, Unpack, Packable, Format;
    WordsOfFormat(e);
    UnpackUndoesPack(e.created);
    UnpackUndoesPack(e.accessed);
    UnpackUndoesPack(e.modified);
  }

  /** Neither deleted nor past the end. */
  predicate IsValid(e: DirEntry)
    requires |e.name| == 11
  {
    e.name[0] != 0xE5 && !(e.name[0] == 0 && e.name[8] == 0)
  }

  // ---------------------------------------------------------------------------
  // A run of entries in sectors that follow one another
  // ---------------------------------------------------------------------------

  /** Whether entry `i` of the run from sector `first` on lies in the partition. */
  predicate Present(v: Volume, first: nat, i: nat) { first + i / ENTRIES_PER_BLOCK < |v.sectors| }

  function EntryAt(v: Volume, first: nat, i: nat): DirEntry
    requires ValidVolume(v) && Present(v, first, i)
  {
    var at := i % ENTRIES_PER_BLOCK * ENTRY;
    Parse(v.sectors[first + i / ENTRIES_PER_BLOCK][at..at + ENTRY])
  }

  predicate ValidAt(v: Volume, first: nat, i: nat)
    requires ValidVolume(v)
  {
    Present(v, first, i) && IsValid(EntryAt(v, first, i))
  }

  /** The first `n` entries of a run that is there. */
  function Taken(v: Volume, first: nat, n: nat): seq<DirEntry>
    requires ValidVolume(v)
  {
    seq(n, i => if i >= 0 && Present(v, first, i) then EntryAt(v, first, i) else Parse(Zeros(ENTRY)))
  }

  /** The valid entries up to the first that is not, or all of them, or a sector on the
      way that is not there. */
  datatype Scan = Ended(entries: seq<DirEntry>) | Full(entries: seq<DirEntry>) | Missing

  function Before(seen: seq<DirEntry>, s: Scan): Scan {
    match s
    case Ended(es) => Ended(seen + es)
    case Full(es) => Full(seen + es)
    case Missing => Missing
  }

  /** Entries `i` to `n` of a run. */
  function Visit(v: Volume, first: nat, n: nat, i: nat): Scan
    requires ValidVolume(v) && i <= n
    decreases n - i
  {
    if i == n then Full([])
    else if !Present(v, first, i) then Missing
    else if !IsValid(EntryAt(v, first, i)) then Ended([])
    else Before([EntryAt(v, first, i)], Visit(v, first, n, i + 1))
  }

  lemma BeforeTwice(a: seq<DirEntry>, b: seq<DirEntry>, s: Scan)
    ensures Before(a, Before(b, s)) == Before(a + b, s)
  {
    assert !s.Missing? ==> a + (b + s.entries) == a + b + s.entries;
  }

  lemma BeforeNone(s: Scan)
    ensures Before([], s) == s
  {
    assert !s.Missing? ==> [] + s.entries == s.entries;
  }

  /** Exactly the longest run of valid entries, and what comes after it. */
  lemma {:induction false} VisitIs(v: Volume, first: nat, n: nat, i: nat) returns (k: nat)
    requires ValidVolume(v) && i <= n
    ensures i <= k <= n && (forall j :: i <= j < k ==> ValidAt(v, first, j)) && (k < n ==> !ValidAt(v, first, k))
    ensures match Visit(v, first, n, i)
            case Ended(es) =>
              && k < n && Present(v, first, k) && |es| == k - i
              && (forall j :: i <= j < k ==> Present(v, first, j) && es[j - i] == EntryAt(v, first, j))
            case Full(es) =>
              && k == n && |es| == n - i
              && (forall j :: i <= j < n ==> Present(v, first, j) && es[j - i] == EntryAt(v, first, j))
            case Missing => k < n && !Present(v, first, k)
    decreases n - i
  {
    hide EntryAt, Present, IsValid;
    if i == n || !ValidAt(v, first, i) {
      k := i;
    } else {
      k := VisitIs(v, first, n, i + 1);
    }
  }

  // ---------------------------------------------------------------------------
  // The listing of a directory
  // ---------------------------------------------------------------------------

  /** The root directory lies in sectors of its own. */
  function RootListing(v: Volume): Outcome<seq<DirEntry>>
    requires ValidVolume(v)
  {
    match Visit(v, FirstRootSector(v), v.rootEntries, 0)
    case Missing => Stop
    case Ended(es) => Done(es)
    case Full(es) => Done(es)
  }

  function PerCluster(v: Volume): nat { ENTRIES_PER_BLOCK * v.sectorsPerCluster }

  function Then(seen: seq<DirEntry>, r: Outcome<seq<DirEntry>>): Outcome<seq<DirEntry>> {
    match r
    case Done(es) => Done(seen + es)
    case Err => Err
    case Stop => Stop
  }

  /** Any other directory is a chain of clusters; past the last of them the kernel
      stops. */
  function Listing(v: Volume, chain: seq<Cluster>): Outcome<seq<DirEntry>>
    requires ValidVolume(v)
  {
    if chain == [] || !FirstSector(v, chain[0]).Done? then Stop
    else
      match Visit(v, FirstSector(v, chain[0]).value, PerCluster(v), 0)
      case Missing => Stop
      case Ended(es) => Done(es)
      case Full(es) => Then(es, Listing(v, chain[1..]))
  }

  /** Every entry of cluster `c` is valid. */
  ghost predicate FullCluster(v: Volume, c: Cluster)
    requires ValidVolume(v)
  {
    FirstSector(v, c).Done? && forall i :: 0 <= i < PerCluster(v) ==> ValidAt(v, FirstSector(v, c).value, i)
  }

  /** Entry `k` of cluster `c` is readable and not valid, and those before it are. */
  ghost predicate EndsAt(v: Volume, c: Cluster, k: nat)
    requires ValidVolume(v)
  {
    && FirstSector(v, c).Done? && k < PerCluster(v)
    && (forall i :: 0 <= i < k ==> ValidAt(v, FirstSector(v, c).value, i))
    && Present(v, FirstSector(v, c).value, k) && !ValidAt(v, FirstSector(v, c).value, k)
  }

  /** The first `k` entries of cluster `c`. */
  function SomeOf(v: Volume, c: Cluster, k: nat): seq<DirEntry>
    requires ValidVolume(v)
  {
    if FirstSector(v, c).Done? then Taken(v, FirstSector(v, c).value, k) else []
  }

  /** All entries of all these clusters. */
  function Whole(v: Volume, chain: seq<Cluster>): seq<DirEntry>
    requires ValidVolume(v)
  {
    if chain == [] then [] else SomeOf(v, chain[0], PerCluster(v)) + Whole(v, chain[1..])
  }

  /** Cluster `j` is the first that is not full, and ends at entry `k`. */
  ghost predicate DirectoryEnds(v: Volume, chain: seq<Cluster>, j: nat, k: nat)
    requires ValidVolume(v)
  {
    j < |chain| && (forall x :: 0 <= x < j ==> FullCluster(v, chain[x])) && EndsAt(v, chain[j], k)
  }

  /** The entries before entry `k` of cluster `j`. */
  function UpTo(v: Volume, chain: seq<Cluster>, j: nat, k: nat): seq<DirEntry>
    requires ValidVolume(v) && j < |chain|
  {
    Whole(v, chain[..j]) + SomeOf(v, chain[j], k)
  }

  lemma VisitCluster(v: Volume, c: Cluster, first: nat) returns (k: nat)
    requires ValidVolume(v) && FirstSector(v, c) == Done(first)
    ensures match Visit(v, first, PerCluster(v), 0)
            case Ended(es) => EndsAt(v, c, k) && es == SomeOf(v, c, k)
            case Full(es) => FullCluster(v, c) && es == SomeOf(v, c, PerCluster(v))
            case Missing => !FullCluster(v, c) && forall y: nat :: !EndsAt(v, c, y)
  {
    hide EntryAt, IsValid, FirstSector, Visit, Present, PerCluster;
    k := VisitIs(v, first, PerCluster(v), 0);
  }

  lemma FullHasNoEnd(v: Volume, c: Cluster, k: nat)
    requires ValidVolume(v) && FullCluster(v, c)
    ensures !EndsAt(v, c, k)
  {
  }

  lemma EndsFrom(v: Volume, chain: seq<Cluster>, j: nat, k: nat)
    requires ValidVolume(v) && chain != [] && FullCluster(v, chain[0])
    ensures !DirectoryEnds(v, chain, 0, k)
    ensures DirectoryEnds(v, chain[1..], j, k) <==> DirectoryEnds(v, chain, j + 1, k)
    ensures j < |chain| - 1 ==> UpTo(v, chain, j + 1, k) == SomeOf(v, chain[0], PerCluster(v)) + UpTo(v, chain[1..], j, k)
  {
    hide FullCluster, EndsAt, SomeOf, PerCluster;
    FullHasNoEnd(v, chain[0], k);
    var n := j + 1;
    if j < |chain| - 1 {
      assert chain[..n][1..] == chain[1..][..j];
      forall x ensures 0 <= x < j ==> chain[1..][x] == chain[x + 1] {}
      forall x ensures 0 < x < n ==> chain[x] == chain[1..][x - 1] {}
    }
  }

  lemma EndsHere(v: Volume, chain: seq<Cluster>, j: nat, k: nat)
    requires ValidVolume(v) && chain != [] && !FullCluster(v, chain[0])
    ensures DirectoryEnds(v, chain, j, k) <==> j == 0 && EndsAt(v, chain[0], k)
    ensures UpTo(v, chain, 0, k) == SomeOf(v, chain[0], k)
  {
    hide FullCluster, EndsAt, SomeOf;
  }

  /** A directory is listed exactly if some entry in its clusters is readable, not valid
      and preceded by valid ones only; listed are then exactly those before it, and
      otherwise the kernel stops. */
  lemma {:induction false} ListingIs(v: Volume, chain: seq<Cluster>) returns (j: nat, k: nat)
    requires ValidVolume(v)
    ensures if DirectoryEnds(v, chain, j, k) then Listing(v, chain) == Done(UpTo(v, chain, j, k))
            else Listing(v, chain) == Stop && forall x: nat, y: nat :: !DirectoryEnds(v, chain, x, y)
    decreases |chain|
  {
    hide Visit, DirectoryEnds, UpTo, FirstSector;
    j, k := 0, 0;
    if chain == [] {
      NoClusters(v);
    } else {
      var first := FirstSector(v, chain[0]);
      if first.Done? {
        k := VisitCluster(v, chain[0], first.value);
      }
      if first.Done? && Visit(v, first.value, PerCluster(v), 0).Full? {
        j, k := ListingIs(v, chain[1..]);
        forall x: nat, y: nat ensures DirectoryEnds(v, chain, x, y) ==> x > 0 && DirectoryEnds(v, chain[1..], x - 1, y) {
          EndsFrom(v, chain, if x > 0 then x - 1 else 0, y);
        }
        EndsFrom(v, chain, j, k);
        InChain(v, chain[1..], j, k);
        j := j + 1;
      } else {
        NotFull(v, chain[0], k);
        forall x: nat, y: nat ensures DirectoryEnds(v, chain, x, y) <==> x == 0 && EndsAt(v, chain[0], y) {
          EndsHere(v, chain, x, y);
        }
        EndsHere(v, chain, 0, k);
      }
    }
  }

  lemma NoClusters(v: Volume)
    requires ValidVolume(v)
    ensures forall x: nat, y: nat :: !DirectoryEnds(v, [], x, y)
  {
  }

  lemma InChain(v: Volume, chain: seq<Cluster>, j: nat, k: nat)
    requires ValidVolume(v)
    ensures DirectoryEnds(v, chain, j, k) ==> j < |chain|
  {
  }

  lemma NotFull(v: Volume, c: Cluster, k: nat)
    requires ValidVolume(v)
    ensures !FirstSector(v, c).Done? || EndsAt(v, c, k) ==> !FullCluster(v, c)
    ensures !FirstSector(v, c).Done? ==> forall y: nat :: !EndsAt(v, c, y)
  {
  }

  // ---------------------------------------------------------------------------
  // The loops
  // ---------------------------------------------------------------------------

  lemma EntryIn(v: Volume, first: nat, from: nat, i: nat)
    requires ValidVolume(v) && from % ENTRIES_PER_BLOCK == 0 && i < ENTRIES_PER_BLOCK && Present(v, first, from)
    ensures Present(v, first, from + i) && |v.sectors[first + from / ENTRIES_PER_BLOCK]| == SECTOR
    ensures EntryAt(v, first, from + i) ==
            Parse(v.sectors[first + from / ENTRIES_PER_BLOCK][i * ENTRY..i * ENTRY + ENTRY])
  {
    assert (from + i) / ENTRIES_PER_BLOCK == from / ENTRIES_PER_BLOCK && (from + i) % ENTRIES_PER_BLOCK == i;
  }

  /** `whole` is what was seen and the rest of the run from entry `i` on. */
  ghost predicate Goes(v: Volume, first: nat, n: nat, whole: Scan, seen: seq<DirEntry>, i: nat)
    requires ValidVolume(v)
  {
    i <= n && whole == Before(seen, Visit(v, first, n, i))
  }

  lemma GoesOn(v: Volume, first: nat, n: nat, whole: Scan, seen: seq<DirEntry>, i: nat)
    requires ValidVolume(v) && Goes(v, first, n, whole, seen, i)
    ensures i == n ==> whole == Full(seen)
    ensures i < n && !Present(v, first, i) ==> whole == Missing
    ensures i < n && Present(v, first, i) && !ValidAt(v, first, i) ==> whole == Ended(seen)
    ensures i < n && ValidAt(v, first, i) ==> Goes(v, first, n, whole, seen + [EntryAt(v, first, i)], i + 1)
  {
    hide Present, IsValid, EntryAt;
    assert seen + [] == seen;
    if i < n && ValidAt(v, first, i) {
      BeforeTwice(seen, [EntryAt(v, first, i)], Visit(v, first, n, i + 1));
    }
  }

  /** The first `count` entries of one block, the first of them being entry `from` of
      the run. */
  method VisitBlock(v: Volume, block: seq<Octet>, count: nat, before: seq<DirEntry>,
                    ghost first: nat, ghost n: nat, ghost from: nat, ghost whole: Scan)
      returns (seen: seq<DirEntry>, ended: bool)
    requires ValidVolume(v) && from + count <= n && count <= ENTRIES_PER_BLOCK && from % ENTRIES_PER_BLOCK == 0
    requires Present(v, first, from) && block == v.sectors[first + from / ENTRIES_PER_BLOCK]
    requires Goes(v, first, n, whole, before, from)
    ensures ended ==> whole == Ended(seen)
    ensures !ended ==> Goes(v, first, n, whole, seen, from + count)
  {
    hide Visit, EntryAt, Goes, Parse;
    seen, ended := before, false;
    for i := 0 to count
      invariant Goes(v, first, n, whole, seen, from + i)
    {
      GoesOn(v, first, n, whole, seen, from + i);
      EntryIn(v, first, from, i);
      var entry := Parse(block[i * ENTRY..i * ENTRY + ENTRY]);
      if !IsValid(entry) {
        return seen, true;
      }
      seen := seen + [entry];
    }
  }

  /** Block by block. */
  method VisitRun(v: Volume, first: nat, n: nat, before: seq<DirEntry>) returns (r: Scan)
    requires ValidVolume(v)
    ensures r == Before(before, Visit(v, first, n, 0))
  {
    hide Visit, EntryAt, Goes;
    var sector, left, seen := first, n, before;
    ghost var whole := Before(before, Visit(v, first, n, 0));
    GoesFrom(v, first, n, before);
    while left > 0
      invariant 0 <= left <= n && (left > 0 ==> (n - left) % ENTRIES_PER_BLOCK == 0)
      invariant left > 0 ==> sector == first + (n - left) / ENTRIES_PER_BLOCK
      invariant Goes(v, first, n, whole, seen, n - left)
    {
      ghost var from := n - left;
      GoesOn(v, first, n, whole, seen, from);
      var block := ReadBlock(v, sector);
      if block.None? {
        return Missing;
      }
      var count := Min(left, ENTRIES_PER_BLOCK);
      var ended;
      seen, ended := VisitBlock(v, block.value, count, seen, first, n, from, whole);
      if ended {
        return Ended(seen);
      }
      left, sector := left - count, sector + 1;
    }
    GoesOn(v, first, n, whole, seen, n);
    r := Full(seen);
  }

  lemma GoesFrom(v: Volume, first: nat, n: nat, before: seq<DirEntry>)
    requires ValidVolume(v)
    ensures Goes(v, first, n, Before(before, Visit(v, first, n, 0)), before, 0)
  {
  }

  /** Cluster `i + 1` of the chain is what the table lookup gives for cluster `i`; that
      may be the number of an empty or an invalid cluster. */
  ghost predicate Linked(v: Volume, chain: seq<Cluster>, i: nat)
    requires i + 1 < |chain|
  {
    NextCluster(v, chain[i]) == Done(chain[i + 1])
  }

  /** The clusters that the traversal visits from `c` on: it goes on from one only if that
      is full, and ends with one that is not, or for which the lookup stops the kernel. */
  ghost predicate Clusters(v: Volume, c: Cluster, chain: seq<Cluster>)
    requires ValidVolume(v)
  {
    && c != ROOT_DIR && chain != [] && chain[0] == c
    && (forall i :: 0 <= i < |chain| - 1 ==> Linked(v, chain, i) && FullCluster(v, chain[i]))
    && (FullCluster(v, chain[|chain| - 1]) ==> !NextCluster(v, chain[|chain| - 1]).Done?)
  }

  /** There is no third way: the traversal visits such clusters, or a full one after
      another for as long as one likes, and then it never ends. */
  lemma {:induction false} ClustersOrEndless(v: Volume, c: Cluster, n: nat) returns (chain: seq<Cluster>)
    requires ValidVolume(v) && c != ROOT_DIR
    ensures chain != [] && chain[0] == c
    ensures Clusters(v, c, chain) ||
              (|chain| == n + 1 && forall i :: 0 <= i < n ==> Linked(v, chain, i) && FullCluster(v, chain[i]))
    decreases n
  {
    hide FullCluster, NextCluster;
    chain := [c];
    if n > 0 && FullCluster(v, c) && NextCluster(v, c).Done? {
      NeverTheRoot(v, c);
      var rest := ClustersOrEndless(v, NextCluster(v, c).value, n - 1);
      chain := [c] + rest;
      forall i | 0 <= i < |chain| - 1 && (i > 0 ==> Linked(v, rest, i - 1) && FullCluster(v, rest[i - 1]))
        ensures Linked(v, chain, i) && FullCluster(v, chain[i])
      {
        assert i > 0 ==> chain[i] == rest[i - 1];
        assert chain[i + 1] == rest[i];
      }
    }
  }

  /** All clusters of a directory are in use and the table says that it ends there. */
  ghost predicate FullDirectory(v: Volume, data: seq<Cluster>)
    requires ValidVolume(v)
  {
    && data != [] && data[0] != ROOT_DIR && (forall i :: 0 <= i < |data| ==> FullCluster(v, data[i]))
    && (forall i :: 0 <= i < |data| - 1 ==> Linked(v, data, i)) && NextCluster(v, data[|data| - 1]) == Done(INVALID)
  }

  /** The sector at which the traversal then goes on, if nothing overflows or overflow
      is not checked. */
  function PastTheEnd(v: Volume): nat { (FirstDataSector(v) - 12 * v.sectorsPerCluster) % WORD32 }

  predicate EndOverflows(v: Volume) {
    v.checks && (INVALID - 2) * v.sectorsPerCluster + FirstDataSector(v) >= WORD32
  }

  lemma FullVisits(v: Volume, data: seq<Cluster>)
    requires ValidVolume(v) && FullDirectory(v, data)
    ensures Clusters(v, data[0], data + [INVALID])
  {
    hide FullCluster;
    var chain := data + [INVALID];
    forall i | 0 <= i < |chain| - 1 ensures Linked(v, chain, i) && FullCluster(v, chain[i]) {
      assert chain[i] == data[i];
      assert i < |data| - 1 ==> Linked(v, data, i);
    }
    InvalidStops(v);
  }

  lemma InvalidStops(v: Volume)
    requires ValidVolume(v)
    ensures !NextCluster(v, INVALID).Done?
  {
    assert INVALID * 2 % WORD32 == 0xFFFF_FFEC;
  }

  lemma EndsPast(v: Volume, data: seq<Cluster>, j: nat, k: nat)
    requires ValidVolume(v) && FullDirectory(v, data)
    ensures DirectoryEnds(v, data + [INVALID], j, k) <==> j == |data| && EndsAt(v, INVALID, k)
    ensures UpTo(v, data + [INVALID], |data|, k) == Whole(v, data) + SomeOf(v, INVALID, k)
  {
    var chain := data + [INVALID];
    if j < |data| {
      FullHasNoEnd(v, chain[j], k);
    }
    hide FullCluster, EndsAt, SomeOf;
    assert chain[..|data|] == data;
    forall x | 0 <= x < |data| ensures chain[x] == data[x] {}
  }

  lemma EndsAtWrapped(v: Volume, k: nat)
    requires ValidVolume(v)
    ensures EndsAt(v, INVALID, k) ==> !EndOverflows(v) && |SomeOf(v, INVALID, k)| == k
    ensures EndsAt(v, INVALID, 0) <==>
              !EndOverflows(v) && PastTheEnd(v) < |v.sectors| && !IsValid(EntryAt(v, PastTheEnd(v), 0))
  {
    hide FirstSector, IsValid, EntryAt;
    WrappedSector(v);
    assert PerCluster(v) > 0;
  }

  lemma NothingPast(v: Volume, k: nat)
    requires ValidVolume(v) && PastTheEnd(v) >= |v.sectors|
    ensures !EndsAt(v, INVALID, k)
  {
    hide FirstSector, IsValid, EntryAt;
    WrappedSector(v);
  }

  /** A directory that fills its clusters is listed right exactly if the traversal, going
      on twelve clusters before the data, happens on an entry that is not valid; any
      valid entries there are listed too, and if it finds no end the kernel stops. */
  lemma FullDirectoryIs(v: Volume, data: seq<Cluster>)
    requires ValidVolume(v) && FullDirectory(v, data)
    ensures Listing(v, data + [INVALID]) == Done(Whole(v, data)) <==>
              !EndOverflows(v) && PastTheEnd(v) < |v.sectors| && !IsValid(EntryAt(v, PastTheEnd(v), 0))
    ensures forall k: nat :: EndsAt(v, INVALID, k) ==>
              Listing(v, data + [INVALID]) == Done(Whole(v, data) + SomeOf(v, INVALID, k))
    ensures (forall k: nat :: !EndsAt(v, INVALID, k)) <==> Listing(v, data + [INVALID]) == Stop
    ensures EndOverflows(v) ==> Listing(v, data + [INVALID]) == Stop
  {
    hide FirstSector, Listing, Whole, SomeOf, EndsAt, FullCluster, DirectoryEnds, EntryAt, UpTo;
    var j, k := ListingIs(v, data + [INVALID]);
    forall x: nat, y: nat ensures DirectoryEnds(v, data + [INVALID], x, y) <==> x == |data| && EndsAt(v, INVALID, y) {
      EndsPast(v, data, x, y);
    }
    EndsPast(v, data, j, k);
    EndsAtWrapped(v, k);
    forall y: nat | EndsAt(v, INVALID, y) ensures y == k && EndsAt(v, INVALID, k) {
      assert DirectoryEnds(v, data + [INVALID], |data|, y);
      assert DirectoryEnds(v, data + [INVALID], j, k);
      OneEnd(v, INVALID, y, k);
    }
    NoMore(Whole(v, data), SomeOf(v, INVALID, k));
    if EndsAt(v, INVALID, k) {
      assert DirectoryEnds(v, data + [INVALID], |data|, k);
      assert DirectoryEnds(v, data + [INVALID], j, k);
      assert Listing(v, data + [INVALID]) == Done(Whole(v, data) + SomeOf(v, INVALID, k));
    } else {
      assert !DirectoryEnds(v, data + [INVALID], j, k);
    }
  }

  lemma OneEnd(v: Volume, c: Cluster, x: nat, y: nat)
    requires ValidVolume(v) && EndsAt(v, c, x) && EndsAt(v, c, y)
    ensures x == y
  {
  }

  lemma NoMore(a: seq<DirEntry>, b: seq<DirEntry>)
    ensures a + b == a <==> b == []
  {
    assert b == [] ==> a + b == a;
    assert |a + b| == |a| + |b|;
  }

  lemma NeverTheRoot(v: Volume, c: Cluster)
    requires c != ROOT_DIR && NextCluster(v, c).Done?
    ensures NextCluster(v, c).value != ROOT_DIR && NextCluster(v, c).value != END_OF_FILE
  {
  }

  lemma ListingUnfolds(v: Volume, chain: seq<Cluster>, i: nat, seen: seq<DirEntry>)
    requires ValidVolume(v) && i < |chain|
    ensures !FirstSector(v, chain[i]).Done? ==> Then(seen, Listing(v, chain[i..])) == Stop
    ensures FirstSector(v, chain[i]).Done? ==>
              match Before(seen, Visit(v, FirstSector(v, chain[i]).value, PerCluster(v), 0))
              case Missing => Then(seen, Listing(v, chain[i..])) == Stop
              case Ended(es) => Then(seen, Listing(v, chain[i..])) == Done(es)
              case Full(es) => Then(seen, Listing(v, chain[i..])) == Then(es, Listing(v, chain[i + 1..]))
  {
    hide Visit, FirstSector;
    assert chain[i..][0] == chain[i] && chain[i..][1..] == chain[i + 1..];
    if FirstSector(v, chain[i]).Done? && Visit(v, FirstSector(v, chain[i]).value, PerCluster(v), 0).Full? {
      var es, rest := Visit(v, FirstSector(v, chain[i]).value, PerCluster(v), 0).entries, Listing(v, chain[i + 1..]);
      assert rest.Done? ==> seen + (es + rest.value) == seen + es + rest.value;
    }
  }

  /** The entries of the root directory: after its last one the lookup of the next
      cluster says that it is over. */
  method TraverseRoot(v: Volume) returns (r: Outcome<seq<DirEntry>>)
    requires ValidVolume(v)
    ensures r == RootListing(v)
  {
    hide Visit;
    BeforeNone(Visit(v, FirstRootSector(v), v.rootEntries, 0));
    var first := FirstSector(v, ROOT_DIR);
    var seen := VisitRun(v, first.value, v.rootEntries, []);
    match seen
    case Missing => r := Stop;
    case Ended(es) => r := Done(es);
    case Full(es) =>
      var next := NextCluster(v, ROOT_DIR);
      r := if next == Done(END_OF_FILE) then Done(es) else Stop;
  }

  /** The entries of any other directory, cluster after cluster. */
  method TraverseChain(v: Volume, dir: Cluster, ghost chain: seq<Cluster>) returns (r: Outcome<seq<DirEntry>>)
    requires ValidVolume(v) && Clusters(v, dir, chain)
    ensures r == Listing(v, chain)
  {
    hide Visit, Listing, Clusters, FirstSector, NextCluster;
    var cluster, seen := dir, [];
    ghost var i := 0;
    AtStart(v, dir, chain);
    while true
      invariant 0 <= i < |chain| && cluster == chain[i] && Listing(v, chain) == Then(seen, Listing(v, chain[i..]))
      decreases |chain| - i
    {
      ListingUnfolds(v, chain, i, seen);
      var first := FirstSector(v, cluster);
      if !first.Done? {
        return Stop;
      }
      var here := VisitRun(v, first.value, PerCluster(v), seen);
      match here
      case Missing => return Stop;
      case Ended(es) => return Done(es);
      case Full(es) =>
        seen := es;
        var next := NextCluster(v, cluster);
        FullGoesOn(v, dir, chain, i, first.value);
        if !next.Done? {
          return Stop;
        }
        cluster := next.value;
        i := i + 1;
    }
  }

  lemma AtStart(v: Volume, c: Cluster, chain: seq<Cluster>)
    requires ValidVolume(v) && Clusters(v, c, chain)
    ensures chain != [] && c == chain[0] && Listing(v, chain) == Then([], Listing(v, chain[0..]))
  {
    assert chain[0..] == chain;
    assert Listing(v, chain).Done? ==> [] + Listing(v, chain).value == Listing(v, chain).value;
  }

  /** After a full cluster the chain goes on, or the lookup stops the kernel. */
  lemma FullGoesOn(v: Volume, c: Cluster, chain: seq<Cluster>, i: nat, first: nat)
    requires ValidVolume(v) && Clusters(v, c, chain) && i < |chain| && FirstSector(v, chain[i]) == Done(first)
    requires Visit(v, first, PerCluster(v), 0).Full?
    ensures NextCluster(v, chain[i]).Done? ==> i + 1 < |chain| && NextCluster(v, chain[i]).value == chain[i + 1]
    ensures !NextCluster(v, chain[i]).Done? ==> chain[i + 1..] == []
    ensures Listing(v, []) == Stop
  {
    hide Visit, FirstSector, FullCluster, NextCluster;
    var k := VisitCluster(v, chain[i], first);
    assert i < |chain| - 1 ==> Linked(v, chain, i);
  }

  ghost predicate LastNamed(es: seq<DirEntry>, name: seq<Octet>, i: nat) {
    i < |es| && es[i].name == name && forall j :: i < j < |es| ==> es[j].name != name
  }

  /** What the closure of the lookup keeps while the entries are visited. */
  method FindLast(es: seq<DirEntry>, name: seq<Octet>) returns (result: Option<DirEntry>)
    ensures result.None? ==> forall j :: 0 <= j < |es| ==> es[j].name != name
    ensures result.Some? ==> exists i: nat :: LastNamed(es, name, i) && result.value == es[i]
  {
    result := None;
    ghost var last: nat := 0;
    for i := 0 to |es|
      invariant result.None? ==> forall j :: 0 <= j < i ==> es[j].name != name
      invariant result.Some? ==> last < i && es[last].name == name && result.value == es[last]
      invariant result.Some? ==> forall j :: last < j < i ==> es[j].name != name
    {
      if es[i].name == name {
        result, last := Some(es[i]), i;
      }
    }
    assert result.Some? ==> LastNamed(es, name, last);
  }

  /** The entries of a directory, the root or any other. */
  method Traverse(v: Volume, dir: Cluster, ghost chain: seq<Cluster>) returns (r: Outcome<seq<DirEntry>>)
    requires ValidVolume(v)
    requires dir == ROOT_DIR || Clusters(v, dir, chain)
    ensures r == (if dir == ROOT_DIR then RootListing(v) else Listing(v, chain)) && r != Err
  {
    hide Visit, Listing, Clusters, DirectoryEnds, UpTo;
    if dir == ROOT_DIR {
      r := TraverseRoot(v);
    } else {
      r := TraverseChain(v, dir, chain);
      ghost var j, k := ListingIs(v, chain);
    }
  }

  /** The last entry of that name among those listed; not found, an error, exactly if
      there is none. */
  ghost predicate Finds(all: Outcome<seq<DirEntry>>, name: seq<Octet>, r: Outcome<DirEntry>) {
    match all
    case Done(es) =>
      (match r
       case Done(e) => exists i: nat :: LastNamed(es, name, i) && e == es[i]
       case Err => forall j :: 0 <= j < |es| ==> es[j].name != name
       case Stop => false)
    case _ => r == Stop
  }

  /** A name that is none is an error before anything is read. */
  method Lookup(v: Volume, dir: Cluster, name: seq<Octet>, ghost chain: seq<Cluster>) returns (r: Outcome<DirEntry>)
    requires ValidVolume(v)
    requires dir == ROOT_DIR || Clusters(v, dir, chain)
    ensures match ParseName(name)
            case None => r == Err
            case Some(n) => Finds(if dir == ROOT_DIR then RootListing(v) else Listing(v, chain), n, r)
  {
    hide Listing, RootListing, Clusters, ParseName;
    var n := ParseName(name);
    if n.None? {
      return Err;
    }
    var all := Traverse(v, dir, chain);
    if !all.Done? {
      return Stop;
    }
    var result := FindLast(all.value, n.value);
    r := if result.Some? then Done(result.value) else Err;
  }
}
