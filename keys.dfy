/** The radix key abstraction (the `RadixKey` trait) and the key order it induces.
    Level 0 is the most significant byte; `getLevel` is only consulted below `levels`. */
module RadixKeys {

  /** One digit of a key. */
  type byte = b: int | 0 <= b < 256

  /** `LEVELS` and `get_level` of a key type `T`. */
  datatype RadixKey<!T> = RadixKey(levels: nat, getLevel: (T, nat) -> byte)

  function Digit<T>(rk: RadixKey<T>, x: T, level: nat): byte
  {
    rk.getLevel(x, level)
  }

  /** x is at most y when the digits at the levels `ls` are compared left to right. */
  predicate LexLe<T>(rk: RadixKey<T>, x: T, y: T, ls: seq<nat>)
    decreases |ls|
  {
    || |ls| == 0
    || Digit(rk, x, ls[0]) < Digit(rk, y, ls[0])
    || (Digit(rk, x, ls[0]) == Digit(rk, y, ls[0]) && LexLe(rk, x, y, ls[1..]))
  }

  /** Every earlier item is at most every later item, comparing the digits at `ls`. */
  ghost predicate SortedBy<T>(rk: RadixKey<T>, s: seq<T>, ls: seq<nat>)
  {
    forall i, j :: 0 <= i < j < |s| ==> LexLe(rk, s[i], s[j], ls)
  }

  /** The levels lo, lo+1, ..., hi-1. */
  function Range(lo: nat, hi: nat): (r: seq<nat>)
    ensures |r| == if lo <= hi then hi - lo else 0
    ensures forall i :: 0 <= i < |r| ==> r[i] == lo + i
    decreases hi - lo
  {
    if lo >= hi then [] else [lo] + Range(lo + 1, hi)
  }

  /** The levels level, level-1, ..., 1: the order in which the byte-wise LSD passes
      of the MSB-then-LSD sort visit a level-0 chunk. */
  function Down(level: nat): (r: seq<nat>)
    ensures |r| == level
    ensures forall i :: 0 <= i < |r| ==> r[i] == level - i
  {
    if level == 0 then [] else [level] + Down(level - 1)
  }

  function Reverse(ls: seq<nat>): (r: seq<nat>)
    ensures |r| == |ls|
    ensures forall i :: 0 <= i < |r| ==> r[i] == ls[|ls| - 1 - i]
  {
    if |ls| == 0 then [] else Reverse(ls[1..]) + [ls[0]]
  }

  /** All levels of the key, most significant first. */
  function Levels<T>(rk: RadixKey<T>): seq<nat>
  {
    Range(0, rk.levels)
  }

  /** Sorted in ascending order of the whole byte sequence of the key. */
  ghost predicate KeySorted<T>(rk: RadixKey<T>, s: seq<T>)
  {
    SortedBy(rk, s, Levels(rk))
  }

  lemma {:induction false} LexLeReflexive<T>(rk: RadixKey<T>, x: T, ls: seq<nat>)
    ensures LexLe(rk, x, x, ls)
    decreases |ls|
  {
    if |ls| > 0 {
      LexLeReflexive(rk, x, ls[1..]);
    }
  }

  lemma {:induction false} LexLeTotal<T>(rk: RadixKey<T>, x: T, y: T, ls: seq<nat>)
    ensures LexLe(rk, x, y, ls) || LexLe(rk, y, x, ls)
    decreases |ls|
  {
    if |ls| > 0 {
      LexLeTotal(rk, x, y, ls[1..]);
    }
  }

  lemma {:induction false} LexLeTransitive<T>(rk: RadixKey<T>, x: T, y: T, z: T, ls: seq<nat>)
    requires LexLe(rk, x, y, ls) && LexLe(rk, y, z, ls)
    ensures LexLe(rk, x, z, ls)
    decreases |ls|
  {
    if |ls| > 0 && Digit(rk, x, ls[0]) == Digit(rk, y, ls[0]) == Digit(rk, z, ls[0]) {
      LexLeTransitive(rk, x, y, z, ls[1..]);
    }
  }

  /** Two items that are at most each other agree on every digit compared. */
  lemma {:induction false} LexLeAntisymmetric<T>(rk: RadixKey<T>, x: T, y: T, ls: seq<nat>)
    requires LexLe(rk, x, y, ls) && LexLe(rk, y, x, ls)
    ensures forall i :: 0 <= i < |ls| ==> Digit(rk, x, ls[i]) == Digit(rk, y, ls[i])
    decreases |ls|
  {
    if |ls| > 0 {
      LexLeAntisymmetric(rk, x, y, ls[1..]);
      forall i | 0 <= i < |ls|
        ensures Digit(rk, x, ls[i]) == Digit(rk, y, ls[i])
      {
        if i > 0 {
          assert ls[i] == ls[1..][i - 1];
        }
      }
    }
  }

  /** Comparing on an extra leading level changes nothing for items equal on it. */
  lemma LexLeSameLead<T>(rk: RadixKey<T>, x: T, y: T, l: nat, ks: seq<nat>)
    requires Digit(rk, x, l) == Digit(rk, y, l)
    ensures LexLe(rk, x, y, [l] + ks) <==> LexLe(rk, x, y, ks)
  {
    assert ([l] + ks)[1..] == ks;
  }

  /** Sortedness on [l] + ks of items that all share the digit at l is sortedness on ks. */
  lemma SortedBySameLead<T>(rk: RadixKey<T>, s: seq<T>, l: nat, ks: seq<nat>)
    requires forall i :: 0 <= i < |s| ==> Digit(rk, s[i], l) == Digit(rk, s[0], l)
    ensures SortedBy(rk, s, [l] + ks) <==> SortedBy(rk, s, ks)
  {
    forall i, j | 0 <= i < j < |s|
      ensures LexLe(rk, s[i], s[j], [l] + ks) <==> LexLe(rk, s[i], s[j], ks)
    {
      LexLeSameLead(rk, s[i], s[j], l, ks);
    }
  }

  /** The two halves of a concatenation are sorted and each item of the first is
      at most each item of the second. */
  lemma SortedByAppend<T>(rk: RadixKey<T>, a: seq<T>, b: seq<T>, ls: seq<nat>)
    requires SortedBy(rk, a, ls) && SortedBy(rk, b, ls)
    requires forall i, j :: 0 <= i < |a| && 0 <= j < |b| ==> LexLe(rk, a[i], b[j], ls)
    ensures SortedBy(rk, a + b, ls)
  {
    var c := a + b;
    forall i, j | 0 <= i < j < |c|
      ensures LexLe(rk, c[i], c[j], ls)
    {
      if j < |a| {
        assert c[i] == a[i] && c[j] == a[j];
      } else if i < |a| {
        assert c[i] == a[i] && c[j] == b[j - |a|];
      } else {
        assert c[i] == b[i - |a|] && c[j] == b[j - |a|];
      }
    }
  }

  lemma {:induction false} ReverseDown(level: nat)
    ensures Reverse(Down(level)) == Range(1, level + 1)
  {
  }
}
