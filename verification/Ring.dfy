/** A ring of slots holding the unread part of an endless message log. */
module Ring {
  lemma ModOf(size: nat, q: nat, i: nat)
    requires i < size
    ensures (size * q + i) % size == i
  {
    var m: int := size * q + i;
    var d: int := m / size - q;
    assert size * (m / size) + m % size == m;
    assert size * d == size * (m / size) - size * q;
    assert size * d + m % size == i;
    assert d >= 1 ==> size * d >= size;
    assert d <= -1 ==> size * d + size <= 0;
  }

  lemma ModApart(a: nat, b: nat, size: nat)
    requires a < b < a + size
    ensures a % size != b % size
  {
    var k: int := b / size - a / size;
    assert size * k == size * (b / size) - size * (a / size);
    assert b - a == size * k + (b % size - a % size);
    assert k >= 1 ==> size * k >= size;
    assert k <= 0 ==> size * k <= 0;
  }

  lemma ModAround(a: nat, size: nat)
    requires size > 0
    ensures (a + size) % size == a % size
  {
    var q, r := a / size, a % size;
    assert a + size == size * (q + 1) + r;
    ModOf(size, q + 1, r);
  }

  lemma ModNext(a: nat, size: nat)
    requires size > 0
    ensures (a % size + 1) % size == (a + 1) % size
  {
    var q, r := a / size, a % size;
    assert a == size * q + r;
    if r + 1 < size {
      assert a + 1 == size * q + (r + 1);
      ModOf(size, q, r + 1);
      ModOf(size, 0, r + 1);
    } else {
      assert a + 1 == size * (q + 1) + 0;
      ModOf(size, q + 1, 0);
      ModOf(size, 1, 0);
    }
  }

  function Slot(l: nat, size: nat): nat
    requires size > 0
  {
    l % size
  }

  /** Message `l` of the log is in slot `l mod size` from `read` on, and every
      other slot is zero. */
  ghost predicate Holds(slots: seq<int>, log: seq<int>, read: nat) {
    && |slots| > 0
    && read <= |log| <= read + |slots|
    && (forall l: nat :: read <= l < |log| ==> slots[Slot(l, |slots|)] == log[l])
    && (forall l: nat :: |log| <= l < read + |slots| ==> slots[Slot(l, |slots|)] == 0)
  }

  /** Storing in the slot after the last unread message overwrites none. */
  lemma Store(slots: seq<int>, log: seq<int>, read: nat, v: int)
    requires Holds(slots, log, read) && |log| < read + |slots|
    ensures Holds(slots[Slot(|log|, |slots|) := v], log + [v], read)
  {
    forall l: nat | read <= l < read + |slots| && l != |log| ensures Slot(l, |slots|) != Slot(|log|, |slots|) {
      if l < |log| {
        ModApart(l, |log|, |slots|);
      } else {
        ModApart(|log|, l, |slots|);
      }
    }
  }

  /** Clearing the slot of the oldest unread message leaves the others. */
  lemma Clear(slots: seq<int>, log: seq<int>, read: nat)
    requires Holds(slots, log, read) && read < |log|
    ensures slots[Slot(read, |slots|)] == log[read]
    ensures Holds(slots[Slot(read, |slots|) := 0], log, read + 1)
  {
    forall l: nat | read < l < read + |slots| ensures Slot(l, |slots|) != Slot(read, |slots|) {
      ModApart(read, l, |slots|);
    }
    ModAround(read, |slots|);
  }

  /** With nothing unread all slots are zero. */
  lemma Empty(slots: seq<int>, log: seq<int>, i: nat)
    requires Holds(slots, log, |log|) && i < |slots|
    ensures slots[i] == 0
  {
    var l := NextAt(|log|, |slots|, i);
    assert Slot(l, |slots|) == i;
  }

  /** The first position from `n` on that falls on slot `i`. */
  lemma NextAt(n: nat, size: nat, i: nat) returns (l: nat)
    requires i < size
    ensures n <= l < n + size && Slot(l, size) == i
  {
    var q, r := n / size, n % size;
    assert n == size * q + r;
    l := if r <= i then size * q + i else size * (q + 1) + i;
    assert size * (q + 1) == size * q + size;
    ModOf(size, if r <= i then q else q + 1, i);
  }
}
