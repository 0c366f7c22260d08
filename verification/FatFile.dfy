/** An open file on a FAT16 volume. */
module FatFiles {
  import opened Fat16

  /** What a call returns: the number of bytes read, or the error. */
  function Count(s: ReadResult): Outcome<nat> {
    match s.outcome
    case Done(_) => Done(|s.bytes|)
    case Err => Err
    case Stop => Stop
  }

  class File {
    const volume: Volume
    const size: nat
    var offset: nat
    var cluster: Cluster

    constructor (volume: Volume, start: Cluster, size: nat)
      ensures this.volume == volume && this.size == size && Where() == Handle(0, start)
    {
      this.volume, this.size, offset, cluster := volume, size, 0, start;
    }

    function Where(): Handle
      reads this
    {
      Handle(offset, cluster)
    }

    method Fill(buf: array<Octet>, at: nat, bytes: seq<Octet>)
      requires at + |bytes| <= buf.Length
      modifies buf
      ensures buf[..at + |bytes|] == old(buf[..at]) + bytes
      ensures buf[at + |bytes|..] == old(buf[at + |bytes|..])
    {
      forall i | 0 <= i < |bytes| {
        buf[at + i] := bytes[i];
      }
    }

    /** One block of the loop in `Read`. */
    method ReadSector(buf: array<Octet>, read: nat, sector: nat, skip: nat) returns (round: Round)
      requires ValidVolume(volume) && offset <= size && skip < SECTOR && read <= buf.Length
      modifies this, buf
      ensures round == OneRound(volume, size, old(Where()), sector, skip, buf.Length - read) && Where() == round.handle
      ensures buf[..read + |round.bytes|] == old(buf[..read]) + round.bytes
      ensures buf[read + |round.bytes|..] == old(buf[read + |round.bytes|..])
    {
      var first := FirstSector(volume, cluster);
      if !first.Done? {
        return Ends(Stop, [], Where());
      }
      var block := ReadBlock(volume, first.value + sector);
      if block.None? {
        return Ends(Err, [], Where());
      }
      var n := Min(Min(buf.Length - read, SECTOR - skip), size - offset);
      var bytes := block.value[skip..skip + n];
      Fill(buf, read, bytes);
      offset := offset + n;
      if read + n == buf.Length || offset == size {
        return Ends(Done(()), bytes, Where());
      }
      if sector + 1 != volume.sectorsPerCluster {
        return Goes(bytes, Where(), sector + 1);
      }
      var next := NextCluster(volume, cluster);
      if !next.Done? {
        return Ends(if next.Err? then Err else Stop, bytes, Where());
      }
      cluster := next.value;
      round := Goes(bytes, Where(), 0);
    }

    /** Fills the front of the buffer; what an error leaves there is kept as well. */
    method Read(buf: array<Octet>) returns (r: Outcome<nat>)
      requires ValidVolume(volume) && offset <= size
      modifies this, buf
      ensures var s := ReadOnce(volume, size, old(Where()), buf.Length);
              && Where() == s.handle && buf[..] == s.bytes + old(buf[..])[|s.bytes|..]
              && r == Count(s)
    {
      hide OneRound;
      ghost var whole := ReadOnce(volume, size, Where(), buf.Length);
      var read: nat, sector: nat, skip: nat := 0, offset / SECTOR, offset % SECTOR;
      assert buf[..0] == [];
      while true
        invariant offset <= size && read <= buf.Length && skip < SECTOR
        invariant var rest := ReadFrom(volume, size, Where(), sector, skip, buf.Length - read);
                  whole == rest.(bytes := buf[..read] + rest.bytes)
        invariant buf[read..] == old(buf[read..])
        decreases buf.Length - read
      {
        ghost var front := buf[..read];
        var round := ReadSector(buf, read, sector, skip);
        read := read + |round.bytes|;
        assert buf[..read] == front + round.bytes;
        if round.Ends? {
          assert buf[..] == buf[..read] + buf[read..];
          return Count(ReadResult(round.outcome, buf[..read], Where()));
        }
        assert forall x: seq<Octet> :: front + (round.bytes + x) == buf[..read] + x;
        sector, skip := round.sector, 0;
      }
    }

    method ReadUnit() returns (len: Outcome<nat>, unit: seq<Octet>)
      requires ValidVolume(volume) && offset <= size
      modifies this
      ensures var s := ReadOnce(volume, size, old(Where()), UNIT);
              Where() == s.handle && len == Count(s) && unit == s.bytes + Zeros(UNIT - |s.bytes|)
    {
      hide ReadOnce;
      var buf := new Octet[UNIT](_ => 0);
      assert buf[..] == Zeros(UNIT);
      len := Read(buf);
      unit := buf[..];
    }

    /** Units of 1024 bytes, each appended whole. */
    method ReadAll(buf: seq<Octet>) returns (r: Outcome<nat>, out: seq<Octet>)
      requires ValidVolume(volume) && offset <= size
      modifies this
      ensures var (n, bytes) := ReadAllFrom(volume, size, old(Where()));
              r == n && out == buf + bytes
    {
      hide ReadFrom;
      ghost var whole := ReadAllFrom(volume, size, Where());
      var read := 0;
      out := buf;
      while true
        invariant offset <= size
        invariant var (n, bytes) := ReadAllFrom(volume, size, Where());
                  && whole.0 == (if n.Done? then Done(read + n.value) else n)
                  && buf + whole.1 == out + bytes
        decreases size - offset
      {
        ghost var bytes := ReadAllFrom(volume, size, Where()).1;
        var len, unit := ReadUnit();
        if !len.Done? {
          return if len.Err? then Err else Stop, out;
        }
        ghost var before := out;
        read, out := read + len.value, out + unit;
        if len.value == 0 {
          return Done(read), out;
        }
        ghost var rest := ReadAllFrom(volume, size, Where()).1;
        assert bytes == unit + rest && before + bytes == out + rest;
      }
    }
  }
}
