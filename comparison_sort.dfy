/** The comparison sort the library falls back to on short slices, `sort_unstable` of
    the standard library. It is modelled by an insertion sort on the key order, with
    which `Ord` of every key type of the library agrees. */
module ComparisonSort {
  import opened RadixKeys

  /** `s` with `x` inserted before the first item it is at most. */
  function Insert<T>(rk: RadixKey<T>, x: T, s: seq<T>): (r: seq<T>)
    ensures |r| == |s| + 1
    ensures multiset(r) == multiset(s) + multiset{x}
  {
    if |s| == 0 then [x]
    else if LexLe(rk, x, s[0], Levels(rk)) then [x] + s
    else
      assert s == [s[0]] + s[1..];
      [s[0]] + Insert(rk, x, s[1..])
  }

  /** Inserting into a key-sorted sequence keeps it key-sorted. */
  lemma {:induction false} InsertSorted<T>(rk: RadixKey<T>, x: T, s: seq<T>)
    requires KeySorted(rk, s)
    ensures KeySorted(rk, Insert(rk, x, s))
    decreases |s|
  {
    var L := Levels(rk);
    if |s| == 0 {
    } else if LexLe(rk, x, s[0], L) {
      var r := [x] + s;
      forall i, j | 0 <= i < j < |r|
        ensures LexLe(rk, r[i], r[j], L)
      {
        if i == 0 && j > 1 {
          LexLeTransitive(rk, x, s[0], s[j - 1], L);
        }
      }
    } else {
      var t := s[1..];
      var r' := Insert(rk, x, t);
      InsertSorted(rk, x, t);
      forall j | 0 <= j < |r'|
        ensures LexLe(rk, s[0], r'[j], L)
      {
        assert r'[j] in multiset(r');
        if r'[j] == x {
          LexLeTotal(rk, x, s[0], L);
        } else {
          assert r'[j] in multiset(t);
          var i :| 0 <= i < |t| && t[i] == r'[j];
          assert s[1 + i] == r'[j];
        }
      }
      var r := [s[0]] + r';
      forall i, j | 0 <= i < j < |r|
        ensures LexLe(rk, r[i], r[j], L)
      {
        if i > 0 {
          assert r[i] == r'[i - 1] && r[j] == r'[j - 1];
        }
      }
    }
  }

  /** The sorted permutation of `s`. */
  function SortUnstable<T>(rk: RadixKey<T>, s: seq<T>): (r: seq<T>)
    ensures |r| == |s|
    ensures multiset(r) == multiset(s)
    ensures KeySorted(rk, r)
    decreases |s|
  {
    if |s| == 0 then []
    else
      assert s == [s[0]] + s[1..];
      var t := SortUnstable(rk, s[1..]);
      InsertSorted(rk, s[0], t);
      Insert(rk, s[0], t)
  }

  /** `a[lo..hi].sort_unstable()`: the range is replaced by its sorted permutation. */
  method SortUnstableRange<T>(rk: RadixKey<T>, a: array<T>, lo: nat, hi: nat)
    requires lo <= hi <= a.Length
    modifies a
    ensures a[lo..hi] == SortUnstable(rk, old(a[lo..hi]))
    ensures a[..lo] == old(a[..lo]) && a[hi..] == old(a[hi..])
  {
    var r := SortUnstable(rk, a[lo..hi]);
    WriteRange(a, lo, r);
  }

  /** Overwrites `a[lo..lo + |r|]` with `r`. */
  method WriteRange<T>(a: array<T>, lo: nat, r: seq<T>)
    requires lo + |r| <= a.Length
    modifies a
    ensures a[lo..lo + |r|] == r
    ensures a[..lo] == old(a[..lo]) && a[lo + |r|..] == old(a[lo + |r|..])
  {
    forall i | lo <= i < lo + |r| {
      a[i] := r[i - lo];
    }
    assert a[lo..lo + |r|] == r by {
      forall i | 0 <= i < |r|
        ensures a[lo..lo + |r|][i] == r[i]
      {
      }
    }
  }
}
