/** Least-significant-digit radix sorting: repeated stable groupings, each by one level,
    sort by the levels in the reverse of the order they were visited. */
module Lsd {
  import opened RadixKeys
  import opened Grouping

  /** The result of stable groupings at the levels `ls`, first `ls[0]`, then `ls[1]`, ... */
  function LsdPasses<T>(rk: RadixKey<T>, s: seq<T>, ls: seq<nat>): seq<T>
    decreases |ls|
  {
    if |ls| == 0 then s else LsdPasses(rk, Grouped(rk, s, ls[0]), ls[1..])
  }

  lemma SortedByPrefix<T>(rk: RadixKey<T>, s: seq<T>, k: nat, ls: seq<nat>)
    requires SortedBy(rk, s, ls) && k <= |s|
    ensures SortedBy(rk, s[..k], ls)
  {
    forall i, j | 0 <= i < j < k
      ensures LexLe(rk, s[..k][i], s[..k][j], ls)
    {
      assert s[..k][i] == s[i] && s[..k][j] == s[j];
    }
  }

  /** Keeping only the items of one digit keeps a sorted sequence sorted. */
  lemma {:induction false} BucketSorted<T>(rk: RadixKey<T>, s: seq<T>, level: nat, b: int, ks: seq<nat>)
    requires SortedBy(rk, s, ks)
    ensures SortedBy(rk, Bucket(rk, s, level, b), ks)
    decreases |s|
  {
    if |s| > 0 {
      var n := |s| - 1;
      var s' := s[..n];
      var x := s[n];
      assert s == s' + [x];
      SortedByPrefix(rk, s, n, ks);
      BucketSorted(rk, s', level, b, ks);
      var a := Bucket(rk, s', level, b);
      BucketSubset(rk, s', level, b);
      BucketSnoc(rk, s', x, level, b);
      if Digit(rk, x, level) == b {
        forall i, j | 0 <= i < |a| && 0 <= j < 1
          ensures LexLe(rk, a[i], [x][j], ks)
        {
          assert a[i] in multiset(a);
          assert a[i] in multiset(s');
          var p :| 0 <= p < |s'| && s'[p] == a[i];
          assert s[p] == a[i] && s[n] == x;
        }
        SortedByAppend(rk, a, [x], ks);
      }
    }
  }

  /** One stable grouping at level l of a sequence sorted on `ks` sorts it on [l] + ks. */
  lemma LsdStep<T>(rk: RadixKey<T>, s: seq<T>, l: nat, ks: seq<nat>)
    requires SortedBy(rk, s, ks)
    ensures SortedBy(rk, Grouped(rk, s, l), [l] + ks)
  {
    var xs := Buckets(rk, s, l);
    forall m | 0 <= m < |xs|
      ensures SortedBy(rk, xs[m], ks)
    {
      BucketSorted(rk, s, l, m, ks);
    }
    FlattenSortedByDigit(rk, xs, l, ks);
  }

  /** LSD passes only reorder the items. */
  lemma {:induction false} LsdPassesPermutation<T>(rk: RadixKey<T>, s: seq<T>, ls: seq<nat>)
    ensures multiset(LsdPasses(rk, s, ls)) == multiset(s)
    ensures |LsdPasses(rk, s, ls)| == |s|
    decreases |ls|
  {
    if |ls| > 0 {
      GroupedPermutation(rk, s, ls[0]);
      LsdPassesPermutation(rk, Grouped(rk, s, ls[0]), ls[1..]);
    }
  }

  /** The passes at `ls` applied to a sequence sorted on `ks` sort it on the visited
      levels, last visited most significant, with `ks` breaking the remaining ties. */
  lemma {:induction false} LsdPassesSorted<T>(rk: RadixKey<T>, s: seq<T>, ls: seq<nat>, ks: seq<nat>)
    requires SortedBy(rk, s, ks)
    ensures SortedBy(rk, LsdPasses(rk, s, ls), Reverse(ls) + ks)
    decreases |ls|
  {
    if |ls| > 0 {
      LsdStep(rk, s, ls[0], ks);
      LsdPassesSorted(rk, Grouped(rk, s, ls[0]), ls[1..], [ls[0]] + ks);
      assert Reverse(ls[1..]) + ([ls[0]] + ks) == Reverse(ls) + ks;
    } else {
      assert Reverse(ls) + ks == ks;
    }
  }

  /** Passes at `ls` on any input sort it on the reverse of `ls`. */
  lemma LsdPassesSort<T>(rk: RadixKey<T>, s: seq<T>, ls: seq<nat>)
    ensures SortedBy(rk, LsdPasses(rk, s, ls), Reverse(ls))
    ensures multiset(LsdPasses(rk, s, ls)) == multiset(s)
  {
    LsdPassesSorted(rk, s, ls, []);
    assert Reverse(ls) + [] == Reverse(ls);
    LsdPassesPermutation(rk, s, ls);
  }

  /** A pass splits: visiting `a` then `c` is visiting a + c. */
  lemma {:induction false} LsdPassesAppend<T>(rk: RadixKey<T>, s: seq<T>, a: seq<nat>, c: seq<nat>)
    ensures LsdPasses(rk, s, a + c) == LsdPasses(rk, LsdPasses(rk, s, a), c)
    decreases |a|
  {
    if |a| == 0 {
      assert a + c == c;
    } else {
      assert (a + c)[0] == a[0] && (a + c)[1..] == a[1..] + c;
      LsdPassesAppend(rk, Grouped(rk, s, a[0]), a[1..], c);
    }
  }
}
