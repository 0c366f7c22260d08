/** Short file names: from the text of a path to the eleven bytes of a directory entry. */
module FatNames {
  import opened Basics
  import opened Fat16

  const DOT: Octet := 0x2E
  const SPACE: Octet := 0x20

  function Upper(c: Octet): Octet { if 0x61 <= c <= 0x7A then c - 0x20 else c }

  function Uppers(s: seq<Octet>): seq<Octet> { seq(|s|, i requires 0 <= i < |s| => Upper(s[i])) }

  /** Characters that a name must not have: controls and `"*+,/:;<=>?[\]|`. */
  predicate Forbidden(c: Octet) {
    c < 0x20 || c in [0x22, 0x2A, 0x2B, 0x2C, 0x2F, 0x3A, 0x3B, 0x3C, 0x3D, 0x3E, 0x3F, 0x5B, 0x5C, 0x5D, 0x7C]
  }

  /** The index of the last dot, or -1. */
  function LastDot(s: seq<Octet>): (k: int)
    ensures -1 <= k < |s| && (k >= 0 ==> s[k] == DOT) && forall i :: k < i < |s| ==> s[i] != DOT
  {
    if s == [] then -1 else if s[|s| - 1] == DOT then |s| - 1 else LastDot(s[..|s| - 1])
  }

  function Spaces(n: nat): seq<Octet> { seq(n, _ => SPACE) }

  /** A name and an extension, filled up with spaces. */
  function Eleven(base: seq<Octet>, ext: seq<Octet>): (n: seq<Octet>)
    requires |base| <= 8 && |ext| <= 3
    ensures |n| == 11
  {
    base + Spaces(8 - |base|) + ext + Spaces(3 - |ext|)
  }

  function BaseOf(s: seq<Octet>): seq<Octet> { if LastDot(s) < 0 then s else s[..LastDot(s)] }

  function ExtOf(s: seq<Octet>): seq<Octet> { if LastDot(s) < 0 then [] else s[LastDot(s) + 1..] }

  /** `None` is an error: an empty name, one with a space, one too long, or a forbidden
      character before the last dot. */
  function ParseName(name: seq<Octet>): Option<seq<Octet>> {
    var s := Uppers(name);
    if name == [] || SPACE in name || |BaseOf(s)| > 8 || |ExtOf(s)| > 3 || exists c <- BaseOf(s) :: Forbidden(c) then None
    else Some(Eleven(BaseOf(s), ExtOf(s)))
  }

  /** How an entry's name is shown: the dot only before an extension. */
  function Shown(base: seq<Octet>, ext: seq<Octet>): seq<Octet> {
    if ext == [] then base else base + [DOT] + ext
  }

  /** A name and an extension as they stand in an entry. */
  predicate Proper(base: seq<Octet>, ext: seq<Octet>) {
    && 0 < |base| <= 8 && |ext| <= 3
    && (forall c <- base :: !SmallLetter(c) && c != SPACE && !Refused(c))
    && (forall c <- ext :: !SmallLetter(c) && c != SPACE && c != DOT)
  }

  predicate SmallLetter(c: Octet) { 0x61 <= c <= 0x7A }

  /** The codes of the characters that are refused in a name. */
  predicate Refused(c: Octet) {
    c < 0x20 || c == 0x22 || 0x2A <= c <= 0x2C || c == 0x2F || 0x3A <= c <= 0x3F || 0x5B <= c <= 0x5D || c == 0x7C
  }

  /** `t` is `s` but that some capitals may be small letters. */
  predicate SameLetters(t: seq<Octet>, s: seq<Octet>) {
    |t| == |s| && forall i :: 0 <= i < |t| ==> t[i] == s[i] || (0x41 <= s[i] <= 0x5A && t[i] == s[i] + 0x20)
  }

  lemma LastDotIs(s: seq<Octet>, k: int)
    requires -1 <= k < |s| && (k >= 0 ==> s[k] == DOT) && forall i :: k < i < |s| ==> s[i] != DOT
    ensures LastDot(s) == k
  {
    assert LastDot(s) >= 0 ==> s[LastDot(s)] == DOT;
  }

  lemma UppersIs(t: seq<Octet>, s: seq<Octet>)
    requires SameLetters(t, s) && forall c <- s :: !SmallLetter(c)
    ensures Uppers(t) == s
  {
    forall i | 0 <= i < |s| ensures Uppers(t)[i] == s[i] {
      assert s[i] in s;
    }
  }

  lemma ShownParts(base: seq<Octet>, ext: seq<Octet>)
    requires Proper(base, ext) && (ext != [] || DOT !in base)
    ensures BaseOf(Shown(base, ext)) == base && ExtOf(Shown(base, ext)) == ext
  {
    var s := Shown(base, ext);
    if ext == [] {
      LastDotIs(s, -1);
    } else {
      forall i | |base| < i < |s| ensures s[i] != DOT {
        assert s[i] == ext[i - |base| - 1] && s[i] in ext;
      }
      LastDotIs(s, |base|);
    }
  }

  lemma ShownIsText(base: seq<Octet>, ext: seq<Octet>, t: seq<Octet>)
    requires Proper(base, ext) && SameLetters(t, Shown(base, ext))
    ensures t != [] && SPACE !in t && Uppers(t) == Shown(base, ext)
  {
    var s := Shown(base, ext);
    forall c | c in s ensures c in base || c == DOT || c in ext {}
    UppersIs(t, s);
    forall i | 0 <= i < |t| ensures t[i] != SPACE {
      assert s[i] in s;
    }
  }

  /** A shown name, in capitals or small letters or both, leads back to its entry
      exactly if it has an extension or no dot. */
  lemma NamesRoundTrip(base: seq<Octet>, ext: seq<Octet>, t: seq<Octet>)
    requires Proper(base, ext) && SameLetters(t, Shown(base, ext))
    ensures ParseName(t) == Some(Eleven(base, ext)) <==> ext != [] || DOT !in base
  {
    hide Upper, LastDot, Uppers, SameLetters;
    ShownIsText(base, ext, t);
    if ext != [] || DOT !in base {
      ShownParts(base, ext);
    } else {
      CutAtDot(base);
    }
  }

  lemma CutAtDot(base: seq<Octet>)
    requires Proper(base, []) && DOT in base
    ensures |BaseOf(base)| <= 8 && |ExtOf(base)| <= 3 ==> Eleven(BaseOf(base), ExtOf(base)) != Eleven(base, [])
  {
    var k := LastDot(base);
    assert k >= 0;
    if |ExtOf(base)| <= 3 {
      assert Eleven(BaseOf(base), ExtOf(base))[k] == SPACE;
      assert Eleven(base, [])[k] == DOT;
    }
  }

  /** So two dots name the entry of one dot, the directory itself, and three dots name
      the entry of two. */
  lemma DotsAreCut()
    ensures ParseName([DOT, DOT]) == Some(Eleven([DOT], [])) && ParseName([DOT, DOT, DOT]) == Some(Eleven([DOT, DOT], []))
  {
    var two, three := [DOT, DOT], [DOT, DOT, DOT];
    UppersIs(two, two);
    UppersIs(three, three);
    LastDotIs(two, 1);
    LastDotIs(three, 2);
    assert two[..1] == [DOT] && three[..2] == [DOT, DOT] && two[2..] == [] && three[3..] == [];
  }

  // ---------------------------------------------------------------------------
  // Any text at all
  // ---------------------------------------------------------------------------

  /** The last dot is at `k`, or there is none and `k` is the length. */
  ghost predicate BaseEnds(t: seq<Octet>, k: nat) {
    && k <= |t| && (forall i :: k < i < |t| ==> t[i] != 0x2E)
    && if k < |t| then t[k] == 0x2E else 0x2E !in t
  }

  lemma UppersEnd(t: seq<Octet>, k: nat)
    requires BaseEnds(t, k)
    ensures |Uppers(t)| == |t| && LastDot(Uppers(t)) == if k < |t| then k else -1
  {
    var s := Uppers(t);
    forall i | 0 <= i < |t| ensures s[i] == DOT <==> t[i] == 0x2E {}
    LastDotIs(s, if k < |t| then k else -1);
  }

  lemma UppersRefused(t: seq<Octet>, k: nat)
    requires k <= |t| == |Uppers(t)|
    ensures (exists c <- Uppers(t)[..k] :: Forbidden(c)) <==> exists i :: 0 <= i < k && Refused(t[i])
  {
    var s := Uppers(t);
    forall i | 0 <= i < k ensures Forbidden(s[i]) <==> Refused(t[i]) {}
    if i :| 0 <= i < k && Refused(t[i]) {
      assert s[..k][i] in s[..k];
    }
  }

  lemma EverywhereOneEnd(t: seq<Octet>) returns (k: nat)
    ensures BaseEnds(t, k)
  {
    k := if LastDot(t) < 0 then |t| else LastDot(t);
  }

  lemma ElevenAt(base: seq<Octet>, ext: seq<Octet>, i: nat)
    requires |base| <= 8 && |ext| <= 3 && i < 11
    ensures Eleven(base, ext)[i] ==
            if i < |base| then base[i] else if 8 <= i < 8 + |ext| then ext[i - 8] else 0x20
  {
  }

  /** What comes of character `c`. */
  function Capital(c: Octet): Octet { if 0x61 <= c <= 0x7A then c - 0x20 else c }

  /** The character of the text that byte `i` of the entry is made of; the base ends at `k`. */
  function CharOf(t: seq<Octet>, k: nat, i: nat): Octet
    requires k <= |t|
  {
    if i < k then t[i] else if 8 <= i < 8 + |t| - k - 1 then t[k + 1 + i - 8] else 0x20
  }

  lemma NameBytes(t: seq<Octet>, k: nat, i: nat)
    requires BaseEnds(t, k) && k <= 8 && |t| - k <= 4 && i < 11
    ensures var s := Uppers(t);
            |BaseOf(s)| == k && |ExtOf(s)| <= 3 && Eleven(BaseOf(s), ExtOf(s))[i] == Capital(CharOf(t, k, i))
  {
    hide LastDot, Eleven;
    UppersEnd(t, k);
    var s := Uppers(t);
    assert BaseOf(s) == s[..k] && ExtOf(s) == if k < |t| then s[k + 1..] else [];
    ElevenAt(BaseOf(s), ExtOf(s), i);
  }

  lemma NameRefused(t: seq<Octet>, k: nat)
    requires BaseEnds(t, k)
    ensures ParseName(t) == None <==>
              t == [] || 0x20 in t || k > 8 || |t| - k > 4 || exists i :: 0 <= i < k && Refused(t[i])
  {
    hide LastDot, Forbidden, Refused, Uppers, Eleven;
    UppersEnd(t, k);
    UppersRefused(t, k);
    assert BaseOf(Uppers(t)) == Uppers(t)[..k];
  }

  /** From the characters and lengths of any text: when it is refused, and otherwise
      each of the eleven bytes. */
  lemma ParseNameIs(t: seq<Octet>, k: nat)
    requires BaseEnds(t, k)
    ensures ParseName(t) == None <==>
              t == [] || 0x20 in t || k > 8 || |t| - k > 4 || exists i :: 0 <= i < k && Refused(t[i])
    ensures ParseName(t).Some? ==>
              && |ParseName(t).value| == 11
              && forall i :: 0 <= i < 11 ==> ParseName(t).value[i] == Capital(CharOf(t, k, i))
  {
    hide Refused, Forbidden, Uppers, Eleven, BaseOf, ExtOf, CharOf;
    NameRefused(t, k);
    if ParseName(t).Some? {
      forall i | 0 <= i < 11 ensures ParseName(t).value[i] == Capital(CharOf(t, k, i)) {
        NameBytes(t, k, i);
      }
    }
  }
}
