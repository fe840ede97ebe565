/** Histograms, prefix sums and the stable grouping of a slice by one digit.
    `Grouped(rk, s, level)` is the reference result of every counting-sort scatter of
    the library: the items of digit 0 first, then those of digit 1, ..., each group
    in the order the items had in `s`. */
module Grouping {
  import opened RadixKeys

  /** The items of `s` whose digit at `level` is `b`, in their order in `s`. */
  function Bucket<T>(rk: RadixKey<T>, s: seq<T>, level: nat, b: int): (r: seq<T>)
    ensures |r| <= |s|
    ensures forall i :: 0 <= i < |r| ==> Digit(rk, r[i], level) == b
  {
    if |s| == 0 then []
    else
      var init := Bucket(rk, s[..|s| - 1], level, b);
      assert s == s[..|s| - 1] + [s[|s| - 1]];
      if Digit(rk, s[|s| - 1], level) == b then init + [s[|s| - 1]] else init
  }

  /** A bucket holds items of `s` only. */
  lemma {:induction false} BucketSubset<T>(rk: RadixKey<T>, s: seq<T>, level: nat, b: int)
    ensures multiset(Bucket(rk, s, level, b)) <= multiset(s)
    decreases |s|
  {
    if |s| > 0 {
      var s' := s[..|s| - 1];
      assert s == s' + [s[|s| - 1]];
      BucketSubset(rk, s', level, b);
    }
  }

  /** The number of items of `s` whose digit at `level` is `b`. */
  function Count<T>(rk: RadixKey<T>, s: seq<T>, level: nat, b: int): nat
  {
    |Bucket(rk, s, level, b)|
  }

  /** The 256-entry histogram of `s` at `level`. */
  function Counts<T>(rk: RadixKey<T>, s: seq<T>, level: nat): (r: seq<nat>)
    ensures |r| == 256
  {
    seq(256, b => Count(rk, s, level, b))
  }

  function Sum(c: seq<nat>): nat
  {
    if |c| == 0 then 0 else Sum(c[..|c| - 1]) + c[|c| - 1]
  }

  /** Exclusive prefix sums: entry i is the sum of the entries before i. */
  function PrefixSums(c: seq<nat>): (r: seq<nat>)
    ensures |r| == |c|
  {
    seq(|c|, i requires 0 <= i < |c| => Sum(c[..i]))
  }

  function Flatten<U>(xs: seq<seq<U>>): seq<U>
  {
    if |xs| == 0 then [] else Flatten(xs[..|xs| - 1]) + xs[|xs| - 1]
  }

  function Buckets<T>(rk: RadixKey<T>, s: seq<T>, level: nat): (r: seq<seq<T>>)
    ensures |r| == 256
  {
    seq(256, b => Bucket(rk, s, level, b))
  }

  /** The stable grouping of `s` by its digit at `level`. */
  function Grouped<T>(rk: RadixKey<T>, s: seq<T>, level: nat): seq<T>
  {
    Flatten(Buckets(rk, s, level))
  }

  // ---------------------------------------------------------------- buckets and counts

  lemma {:induction false} BucketAppend<T>(rk: RadixKey<T>, a: seq<T>, c: seq<T>, level: nat, b: int)
    ensures Bucket(rk, a + c, level, b) == Bucket(rk, a, level, b) + Bucket(rk, c, level, b)
    decreases |c|
  {
    if |c| > 0 {
      var c' := c[..|c| - 1];
      assert (a + c)[..|a + c| - 1] == a + c';
      BucketAppend(rk, a, c', level, b);
    } else {
      assert a + c == a;
    }
  }

  lemma BucketSingle<T>(rk: RadixKey<T>, x: T, level: nat, b: int)
    ensures Bucket(rk, [x], level, b) == if Digit(rk, x, level) == b then [x] else []
  {
    assert [x][..0] == [];
  }

  /** Appending one item adds it to its own bucket and to no other. */
  lemma BucketSnoc<T>(rk: RadixKey<T>, s: seq<T>, x: T, level: nat, b: int)
    ensures Bucket(rk, s + [x], level, b)
         == if Digit(rk, x, level) == b then Bucket(rk, s, level, b) + [x] else Bucket(rk, s, level, b)
  {
    BucketAppend(rk, s, [x], level, b);
    BucketSingle(rk, x, level, b);
  }

  lemma BucketCons<T>(rk: RadixKey<T>, x: T, s: seq<T>, level: nat, b: int)
    ensures Bucket(rk, [x] + s, level, b)
         == if Digit(rk, x, level) == b then [x] + Bucket(rk, s, level, b) else Bucket(rk, s, level, b)
  {
    BucketAppend(rk, [x], s, level, b);
    BucketSingle(rk, x, level, b);
  }

  lemma CountAppend<T>(rk: RadixKey<T>, a: seq<T>, c: seq<T>, level: nat, b: int)
    ensures Count(rk, a + c, level, b) == Count(rk, a, level, b) + Count(rk, c, level, b)
  {
    BucketAppend(rk, a, c, level, b);
  }

  /** The counts of a prefix never exceed those of the whole. */
  lemma CountPrefix<T>(rk: RadixKey<T>, s: seq<T>, k: nat, level: nat, b: int)
    requires k <= |s|
    ensures Count(rk, s[..k], level, b) + Count(rk, s[k..], level, b) == Count(rk, s, level, b)
  {
    assert s == s[..k] + s[k..];
    CountAppend(rk, s[..k], s[k..], level, b);
  }

  /** Counting is insensitive to the order of the items. */
  lemma {:induction false} CountPermutation<T>(rk: RadixKey<T>, s: seq<T>, t: seq<T>, level: nat, b: int)
    requires multiset(s) == multiset(t)
    ensures Count(rk, s, level, b) == Count(rk, t, level, b)
    decreases |s|
  {
    if |s| == 0 {
      assert |t| == |multiset(t)| == 0;
    } else {
      var x := s[|s| - 1];
      var s' := s[..|s| - 1];
      assert s == s' + [x];
      assert x in multiset(t);
      var k :| 0 <= k < |t| && t[k] == x;
      var t' := t[..k] + t[k + 1..];
      assert t == t[..k] + [x] + t[k + 1..];
      assert multiset(t) == multiset(t[..k]) + multiset{x} + multiset(t[k + 1..]);
      assert multiset(s) == multiset(s') + multiset{x};
      assert multiset(t') == multiset(t[..k]) + multiset(t[k + 1..]);
      assert multiset(s') == multiset(s) - multiset{x};
      assert multiset(t') == multiset(t) - multiset{x};
      CountPermutation(rk, s', t', level, b);
      CountAppend(rk, s', [x], level, b);
      CountAppend(rk, t[..k] + [x], t[k + 1..], level, b);
      CountAppend(rk, t[..k], [x], level, b);
      CountAppend(rk, t[..k], t[k + 1..], level, b);
    }
  }

  lemma CountsPermutation<T>(rk: RadixKey<T>, s: seq<T>, t: seq<T>, level: nat)
    requires multiset(s) == multiset(t)
    ensures Counts(rk, s, level) == Counts(rk, t, level)
  {
    forall b | 0 <= b < 256
      ensures Count(rk, s, level, b) == Count(rk, t, level, b)
    {
      CountPermutation(rk, s, t, level, b);
    }
  }

  // ---------------------------------------------------------------- sums

  lemma {:induction false} SumAppend(a: seq<nat>, c: seq<nat>)
    ensures Sum(a + c) == Sum(a) + Sum(c)
    decreases |c|
  {
    if |c| == 0 {
      assert a + c == a;
    } else {
      assert (a + c)[..|a + c| - 1] == a + c[..|c| - 1];
      SumAppend(a, c[..|c| - 1]);
    }
  }

  lemma SumPrefixStep(c: seq<nat>, i: nat)
    requires i < |c|
    ensures Sum(c[..i + 1]) == Sum(c[..i]) + c[i]
  {
    assert c[..i + 1][..i] == c[..i];
  }

  /** Bumping one entry bumps the sum. */
  lemma {:induction false} SumIncrement(c: seq<nat>, k: nat, d: nat)
    requires k < |c|
    ensures Sum(c[k := c[k] + d]) == Sum(c) + d
    decreases |c|
  {
    var c' := c[k := c[k] + d];
    if k == |c| - 1 {
      assert c'[..|c'| - 1] == c[..|c| - 1];
    } else {
      assert c'[..|c'| - 1] == c[..|c| - 1][k := c[k] + d];
      SumIncrement(c[..|c| - 1], k, d);
    }
  }

  /** The sum over the histogram is the number of items. */
  lemma {:induction false} SumCounts<T>(rk: RadixKey<T>, s: seq<T>, level: nat)
    ensures Sum(Counts(rk, s, level)) == |s|
    decreases |s|
  {
    if |s| == 0 {
      forall b | 0 <= b < 256
        ensures Counts(rk, s, level)[b] == seq(256, b => 0)[b]
      {
      }
      assert Counts(rk, s, level) == seq(256, b => 0);
      SumZero(256);
    } else {
      var s' := s[..|s| - 1];
      var x := s[|s| - 1];
      assert s == s' + [x];
      SumCounts(rk, s', level);
      var d := Digit(rk, x, level);
      var c := Counts(rk, s', level);
      var c2 := Counts(rk, s, level);
      forall b | 0 <= b < 256
        ensures c2[b] == c[d := c[d] + 1][b]
      {
        BucketSnoc(rk, s', x, level, b);
      }
      assert c2 == c[d := c[d] + 1];
      SumIncrement(c, d, 1);
    }
  }

  lemma {:induction false} SumZero(n: nat)
    ensures Sum(seq(n, b => 0)) == 0
  {
    if n > 0 {
      assert seq(n, b => 0)[..n - 1] == seq(n - 1, b => 0);
      SumZero(n - 1);
    }
  }

  /** Prefix sums never decrease, and every slot ends before the next one starts. */
  lemma {:induction false} PrefixSumsMonotone(c: seq<nat>, i: nat, j: nat)
    requires i < j <= |c|
    ensures Sum(c[..i]) + c[i] <= Sum(c[..j])
    decreases j - i
  {
    SumPrefixStep(c, i);
    if i + 1 < j {
      PrefixSumsMonotone(c, i + 1, j);
      SumPrefixStep(c, i + 1);
    }
  }

  lemma SumPrefixBound(c: seq<nat>, i: nat)
    requires i < |c|
    ensures Sum(c[..i]) + c[i] <= Sum(c)
  {
    PrefixSumsMonotone(c, i, |c|);
    assert c[..|c|] == c;
  }

  // ---------------------------------------------------------------- concatenation

  lemma {:induction false} FlattenAppend<U>(a: seq<seq<U>>, c: seq<seq<U>>)
    ensures Flatten(a + c) == Flatten(a) + Flatten(c)
    decreases |c|
  {
    if |c| == 0 {
      assert a + c == a;
    } else {
      var c' := c[..|c| - 1];
      assert (a + c)[..|a + c| - 1] == a + c';
      assert (a + c)[|a + c| - 1] == c[|c| - 1];
      FlattenAppend(a, c');
      assert Flatten(a + c) == Flatten(a + c') + c[|c| - 1];
      assert Flatten(c) == Flatten(c') + c[|c| - 1];
    }
  }

  lemma FlattenSingle<U>(x: seq<U>)
    ensures Flatten([x]) == x
  {
    assert [x][..0] == [];
  }

  lemma {:induction false} FlattenCons<U>(x: seq<U>, xs: seq<seq<U>>)
    ensures Flatten([x] + xs) == x + Flatten(xs)
  {
    FlattenAppend([x], xs);
    FlattenSingle(x);
  }

  /** Flattening a sequence of sequences of sequences in one go or level by level. */
  lemma {:induction false} FlattenFlatten<U>(ys: seq<seq<seq<U>>>)
    ensures Flatten(Flatten(ys)) == Flatten(seq(|ys|, i requires 0 <= i < |ys| => Flatten(ys[i])))
    decreases |ys|
  {
    var fs := seq(|ys|, i requires 0 <= i < |ys| => Flatten(ys[i]));
    if |ys| > 0 {
      var ys' := ys[..|ys| - 1];
      FlattenFlatten(ys');
      assert fs[..|fs| - 1] == seq(|ys'|, i requires 0 <= i < |ys'| => Flatten(ys'[i]));
      FlattenAppend(Flatten(ys'), ys[|ys| - 1]);
    }
  }

  lemma {:induction false} FlattenLength<U>(xs: seq<seq<U>>)
    ensures |Flatten(xs)| == Sum(seq(|xs|, k requires 0 <= k < |xs| => |xs[k]|))
    decreases |xs|
  {
    if |xs| > 0 {
      var xs' := xs[..|xs| - 1];
      FlattenLength(xs');
      assert seq(|xs|, k requires 0 <= k < |xs| => |xs[k]|)[..|xs| - 1]
          == seq(|xs'|, k requires 0 <= k < |xs'| => |xs'[k]|);
    }
  }

  lemma {:induction false} FlattenMultiset<U>(xs: seq<seq<U>>, ys: seq<seq<U>>)
    requires |xs| == |ys|
    requires forall k :: 0 <= k < |xs| ==> multiset(xs[k]) == multiset(ys[k])
    ensures multiset(Flatten(xs)) == multiset(Flatten(ys))
    decreases |xs|
  {
    if |xs| > 0 {
      FlattenMultiset(xs[..|xs| - 1], ys[..|ys| - 1]);
    }
  }

  lemma SlicePrefix<U>(d: seq<U>, start: nat, lo: nat, hi: nat)
    requires lo <= hi <= start <= |d|
    ensures d[..start][lo..hi] == d[lo..hi]
  {
  }

  /** Part k of `xs` is the region of `d` that starts at the sum of the lengths before
      it and has length `lens[k]`. */
  ghost predicate LaidOut<U>(d: seq<U>, xs: seq<seq<U>>, lens: seq<nat>)
  {
    && |xs| == |lens|
    && forall k :: 0 <= k < |xs| ==>
         Sum(lens[..k]) + lens[k] <= |d| && d[Sum(lens[..k])..Sum(lens[..k]) + lens[k]] == xs[k]
  }

  /** Dropping the last part keeps the others laid out in the front of `d`. */
  lemma LaidOutPrefix<U>(d: seq<U>, xs: seq<seq<U>>, lens: seq<nat>)
    requires LaidOut(d, xs, lens) && |xs| > 0
    ensures Sum(lens[..|xs| - 1]) <= |d|
    ensures LaidOut(d[..Sum(lens[..|xs| - 1])], xs[..|xs| - 1], lens[..|xs| - 1])
  {
    var n := |xs| - 1;
    var lens' := lens[..n];
    var start := Sum(lens');
    var d' := d[..start];
    var xs' := xs[..n];
    assert Sum(lens[..n]) + lens[n] <= |d|;
    assert lens[..n][..n] == lens[..n];
    forall k | 0 <= k < |xs'|
      ensures Sum(lens'[..k]) + lens'[k] <= |d'| && d'[Sum(lens'[..k])..Sum(lens'[..k]) + lens'[k]] == xs'[k]
    {
      LaidOutPrefixPart(d, lens, n, k, xs[k]);
    }
  }

  /** One part of `LaidOutPrefix`: a region before the last part is also a region of
      the front of `d`. */
  lemma LaidOutPrefixPart<U>(d: seq<U>, lens: seq<nat>, n: nat, k: nat, x: seq<U>)
    requires k < n <= |lens| && Sum(lens[..n]) <= |d|
    requires Sum(lens[..k]) + lens[k] <= |d| && d[Sum(lens[..k])..Sum(lens[..k]) + lens[k]] == x
    ensures Sum(lens[..n][..k]) + lens[..n][k] <= Sum(lens[..n])
    ensures d[..Sum(lens[..n])][Sum(lens[..n][..k])..Sum(lens[..n][..k]) + lens[..n][k]] == x
  {
    assert lens[..n][..k] == lens[..k];
    PrefixSumsMonotone(lens, k, n);
    SlicePrefix(d, Sum(lens[..n]), Sum(lens[..k]), Sum(lens[..k]) + lens[k]);
  }

  /** Parts laid out one after another, part k at the sum of the lengths before it,
      make up the concatenation of the parts. */
  lemma {:induction false} RegionsFlatten<U>(d: seq<U>, xs: seq<seq<U>>, lens: seq<nat>)
    requires LaidOut(d, xs, lens) && |d| == Sum(lens)
    ensures d == Flatten(xs)
    decreases |xs|
  {
    if |xs| > 0 {
      var n := |xs| - 1;
      var start := Sum(lens[..n]);
      assert Sum(lens) == start + lens[n];
      LaidOutPrefix(d, xs, lens);
      RegionsFlatten(d[..start], xs[..n], lens[..n]);
      assert d[start..start + lens[n]] == xs[n];
      assert d == d[..start] + d[start..];
    }
  }

  // ---------------------------------------------------------------- the stable grouping

  /** Adding an item to one of the parts adds it to the concatenation. */
  lemma {:induction false} FlattenAddOne<U>(xs: seq<seq<U>>, k: nat, x: U)
    requires k < |xs|
    ensures multiset(Flatten(xs[k := xs[k] + [x]])) == multiset(Flatten(xs)) + multiset{x}
    decreases |xs|
  {
    var xs' := xs[k := xs[k] + [x]];
    var n := |xs| - 1;
    if k == n {
      assert xs'[..n] == xs[..n];
    } else {
      assert xs'[..n] == xs[..n][k := xs[k] + [x]];
      FlattenAddOne(xs[..n], k, x);
    }
  }

  /** A grouping only reorders the items. */
  lemma {:induction false} GroupedPermutation<T>(rk: RadixKey<T>, s: seq<T>, level: nat)
    ensures multiset(Grouped(rk, s, level)) == multiset(s)
    ensures |Grouped(rk, s, level)| == |s|
    decreases |s|
  {
    if |s| == 0 {
      FlattenNone(Buckets(rk, s, level));
    } else {
      var s' := s[..|s| - 1];
      var x := s[|s| - 1];
      assert s == s' + [x];
      GroupedPermutation(rk, s', level);
      var d := Digit(rk, x, level);
      var bs := Buckets(rk, s', level);
      forall b | 0 <= b < 256
        ensures Buckets(rk, s, level)[b] == bs[d := bs[d] + [x]][b]
      {
        BucketSnoc(rk, s', x, level, b);
      }
      assert Buckets(rk, s, level) == bs[d := bs[d] + [x]];
      FlattenAddOne(bs, d, x);
    }
    assert |multiset(Grouped(rk, s, level))| == |multiset(s)|;
  }

  /** Parts of which part m holds only digit m, each part sorted on `ks`, concatenate
      into a sequence sorted on [level] + ks whose digits at `level` are below |xs|. */
  lemma {:induction false} FlattenSortedByDigit<T>(rk: RadixKey<T>, xs: seq<seq<T>>, level: nat, ks: seq<nat>)
    requires forall m, i :: 0 <= m < |xs| && 0 <= i < |xs[m]| ==> Digit(rk, xs[m][i], level) == m
    requires forall m :: 0 <= m < |xs| ==> SortedBy(rk, xs[m], ks)
    ensures SortedBy(rk, Flatten(xs), [level] + ks)
    ensures forall i :: 0 <= i < |Flatten(xs)| ==> Digit(rk, Flatten(xs)[i], level) < |xs|
    decreases |xs|
  {
    if |xs| > 0 {
      var n := |xs| - 1;
      var a := Flatten(xs[..n]);
      var c := xs[n];
      FlattenSortedByDigit(rk, xs[..n], level, ks);
      SortedBySameLead(rk, c, level, ks);
      forall i, j | 0 <= i < |a| && 0 <= j < |c|
        ensures LexLe(rk, a[i], c[j], [level] + ks)
      {
      }
      SortedByAppend(rk, a, c, [level] + ks);
    }
  }

  /** The digits at `level` of a grouping never decrease. */
  lemma GroupedOrdered<T>(rk: RadixKey<T>, s: seq<T>, level: nat)
    ensures forall i, j :: 0 <= i < j < |Grouped(rk, s, level)| ==>
              Digit(rk, Grouped(rk, s, level)[i], level) <= Digit(rk, Grouped(rk, s, level)[j], level)
  {
    var xs := Buckets(rk, s, level);
    forall m | 0 <= m < 256
      ensures SortedBy(rk, xs[m], [])
    {
    }
    FlattenSortedByDigit(rk, xs, level, []);
  }

  /** Filtering distributes over concatenation of parts. */
  lemma {:induction false} BucketFlatten<T>(rk: RadixKey<T>, xs: seq<seq<T>>, level: nat, b: int)
    ensures Bucket(rk, Flatten(xs), level, b)
         == Flatten(seq(|xs|, k requires 0 <= k < |xs| => Bucket(rk, xs[k], level, b)))
    decreases |xs|
  {
    if |xs| > 0 {
      var n := |xs| - 1;
      var xs' := xs[..n];
      var ys := seq(|xs|, k requires 0 <= k < |xs| => Bucket(rk, xs[k], level, b));
      var ys' := seq(n, k requires 0 <= k < n => Bucket(rk, xs'[k], level, b));
      BucketFlatten(rk, xs', level, b);
      assert Flatten(xs) == Flatten(xs') + xs[n];
      BucketAppend(rk, Flatten(xs'), xs[n], level, b);
      assert ys[..n] == ys';
      assert Flatten(ys) == Flatten(ys') + ys[n];
    }
  }

  lemma BucketOfBucket<T>(rk: RadixKey<T>, s: seq<T>, level: nat, b: int, c: int)
    ensures Bucket(rk, Bucket(rk, s, level, c), level, b) == if b == c then Bucket(rk, s, level, b) else []
  {
    var r := Bucket(rk, s, level, c);
    if b == c {
      BucketAll(rk, r, level, b);
    } else {
      BucketNone(rk, r, level, b);
    }
  }

  lemma {:induction false} BucketAll<T>(rk: RadixKey<T>, s: seq<T>, level: nat, b: int)
    requires forall i :: 0 <= i < |s| ==> Digit(rk, s[i], level) == b
    ensures Bucket(rk, s, level, b) == s
    decreases |s|
  {
    if |s| > 0 {
      BucketAll(rk, s[..|s| - 1], level, b);
    }
  }

  lemma {:induction false} BucketNone<T>(rk: RadixKey<T>, s: seq<T>, level: nat, b: int)
    requires forall i :: 0 <= i < |s| ==> Digit(rk, s[i], level) != b
    ensures Bucket(rk, s, level, b) == []
    decreases |s|
  {
    if |s| > 0 {
      BucketNone(rk, s[..|s| - 1], level, b);
    }
  }

  /** Only one part is nonempty: the concatenation is that part. */
  lemma {:induction false} FlattenOnly<U>(xs: seq<seq<U>>, b: nat)
    requires b < |xs|
    requires forall k :: 0 <= k < |xs| && k != b ==> xs[k] == []
    ensures Flatten(xs) == xs[b]
    decreases |xs|
  {
    var n := |xs| - 1;
    if b < n {
      FlattenOnly(xs[..n], b);
    } else {
      FlattenNone(xs[..n]);
    }
  }

  lemma {:induction false} FlattenNone<U>(xs: seq<seq<U>>)
    requires forall k :: 0 <= k < |xs| ==> xs[k] == []
    ensures Flatten(xs) == []
    decreases |xs|
  {
    if |xs| > 0 {
      FlattenNone(xs[..|xs| - 1]);
    }
  }

  /** A grouping is stable: the items of each digit keep their relative order. */
  lemma GroupedStable<T>(rk: RadixKey<T>, s: seq<T>, level: nat, b: int)
    requires 0 <= b < 256
    ensures Bucket(rk, Grouped(rk, s, level), level, b) == Bucket(rk, s, level, b)
  {
    var xs := Buckets(rk, s, level);
    BucketFlatten(rk, xs, level, b);
    var ys := seq(|xs|, k requires 0 <= k < |xs| => Bucket(rk, xs[k], level, b));
    forall k | 0 <= k < 256
      ensures ys[k] == if k == b then Bucket(rk, s, level, b) else []
    {
      BucketOfBucket(rk, s, level, b, k);
    }
    FlattenOnly(ys, b);
  }

  /** A grouping lays out the buckets one after another at the prefix sums of the
      histogram: any sequence of the same length laid out that way is the grouping. */
  lemma GroupedAt<T>(rk: RadixKey<T>, s: seq<T>, level: nat, d: seq<T>)
    requires |d| == |s|
    requires LaidOut(d, Buckets(rk, s, level), Counts(rk, s, level))
    ensures d == Grouped(rk, s, level)
  {
    SumCounts(rk, s, level);
    RegionsFlatten(d, Buckets(rk, s, level), Counts(rk, s, level));
  }
}
