/** The counting-sort scatters of `sorts/out_of_place_sort.rs`: every item of `src` goes
    to the cursor of its digit, cursors starting at the prefix sums of the histogram. */
module OutOfPlaceSort {
  import opened RadixKeys
  import opened Grouping
  import opened Scatter
  import opened SortUtils

  /** Scatters `src` into `dst` by the digit at `level`: 8-item chunks first, then the
      remainder. `counts` must be the histogram of `src` at `level`. */
  method OutOfPlaceSort<T>(rk: RadixKey<T>, src: seq<T>, dst: array<T>, counts: seq<nat>, level: nat)
    requires counts == Counts(rk, src, level) && dst.Length == |src|
    modifies dst
    ensures dst[..] == Grouped(rk, src, level)
  {
    var prefixSums := GetPrefixSums(counts);
    ghost var starts := prefixSums;
    PlacedInit(rk, src, level, starts, dst[..]);
    var i := 0;
    while i + 8 <= |src|
      invariant i <= |src| && Placed(rk, src, level, i, starts, prefixSums, dst[..])
      decreases |src| - i
    {
      prefixSums := PlaceEight(rk, src, level, i, starts, prefixSums, dst);
      i := i + 8;
    }
    prefixSums := PlaceRest(rk, src, level, i, starts, prefixSums, dst);
    PlacedDone(rk, src, level, starts, prefixSums, dst[..]);
  }

  /** One 8-item chunk of `OutOfPlaceSort`. */
  method PlaceEight<T>(rk: RadixKey<T>, src: seq<T>, level: nat, i: nat, ghost starts: seq<nat>,
                       cursors: seq<nat>, dst: array<T>) returns (next: seq<nat>)
    requires starts == PrefixSums(Counts(rk, src, level))
    requires i + 8 <= |src| && Placed(rk, src, level, i, starts, cursors, dst[..])
    modifies dst
    ensures Placed(rk, src, level, i + 8, starts, next, dst[..])
  {
    next := cursors;
    for j := 0 to 8
      invariant Placed(rk, src, level, i + j, starts, next, dst[..])
    {
      next := PlaceItem(rk, src, level, i + j, starts, next, dst);
    }
  }

  /** The remainder loop of `OutOfPlaceSort`: the items from i on, one at a time. */
  method PlaceRest<T>(rk: RadixKey<T>, src: seq<T>, level: nat, i: nat, ghost starts: seq<nat>,
                      cursors: seq<nat>, dst: array<T>) returns (next: seq<nat>)
    requires starts == PrefixSums(Counts(rk, src, level))
    requires i <= |src| && Placed(rk, src, level, i, starts, cursors, dst[..])
    modifies dst
    ensures Placed(rk, src, level, |src|, starts, next, dst[..])
  {
    next := cursors;
    for k := i to |src|
      invariant Placed(rk, src, level, k, starts, next, dst[..])
    {
      next := PlaceItem(rk, src, level, k, starts, next, dst);
    }
  }

  /** The same scatter, also counting the digits at `level + 1`: items at even positions
      of each 8-item chunk into `next_counts_0`, odd ones into `next_counts_1`, the
      remainder into `next_counts_0`; the two are added up at the end. */
  method OutOfPlaceSortWithCounts<T>(rk: RadixKey<T>, src: seq<T>, dst: array<T>, counts: seq<nat>, level: nat)
    returns (nextCounts: seq<nat>)
    requires counts == Counts(rk, src, level) && dst.Length == |src|
    requires level + 1 < rk.levels
    modifies dst
    ensures dst[..] == Grouped(rk, src, level)
    ensures nextCounts == Counts(rk, src, level + 1)
  {
    var prefixSums := GetPrefixSums(counts);
    ghost var starts := prefixSums;
    var nextCounts0: seq<nat> := seq(256, i => 0);
    var nextCounts1: seq<nat> := seq(256, i => 0);
    PlacedInit(rk, src, level, starts, dst[..]);
    PairTalliedInit(rk, src, level + 1);
    var i := 0;
    while i + 8 <= |src|
      invariant i <= |src| && PlacedTallied(rk, src, level, i, starts, prefixSums, dst[..], nextCounts0, nextCounts1)
      decreases |src| - i
    {
      prefixSums, nextCounts0, nextCounts1 :=
        PlaceEightAndCount(rk, src, level, i, starts, prefixSums, nextCounts0, nextCounts1, dst);
      i := i + 8;
    }
    prefixSums, nextCounts0, nextCounts1 :=
      PlaceRestAndCount(rk, src, level, i, starts, prefixSums, nextCounts0, nextCounts1, dst);
    PlacedDone(rk, src, level, starts, prefixSums, dst[..]);
    assert src[..|src|] == src;
    nextCounts := MergeCounts(nextCounts0, nextCounts1);
  }

  /** Adds `c1` into `c0` entry by entry. */
  method MergeCounts(c0: seq<nat>, c1: seq<nat>) returns (r: seq<nat>)
    requires |c0| == |c1|
    ensures r == AddCounts(c0, c1)
  {
    r := c0;
    for c := 0 to |c0|
      invariant |r| == |c0|
      invariant forall e :: 0 <= e < c ==> r[e] == c0[e] + c1[e]
      invariant forall e :: c <= e < |c0| ==> r[e] == c0[e]
    {
      r := r[c := r[c] + c1[c]];
    }
  }

  /** The elementwise sum of two histograms. */
  function AddCounts(c0: seq<nat>, c1: seq<nat>): (r: seq<nat>)
    requires |c0| == |c1|
    ensures |r| == |c0| && forall i :: 0 <= i < |r| ==> r[i] == c0[i] + c1[i]
  {
    seq(|c0|, i requires 0 <= i < |c0| => c0[i] + c1[i])
  }

  /** Two accumulators that together hold the histogram of the first k items. */
  ghost predicate PairTallied<T>(rk: RadixKey<T>, s: seq<T>, k: nat, level: nat, c0: seq<nat>, c1: seq<nat>)
    requires k <= |s|
  {
    |c0| == 256 && |c1| == 256 && AddCounts(c0, c1) == Counts(rk, s[..k], level)
  }

  /** Counting item k into either accumulator. */
  lemma PairTalliedStep<T>(rk: RadixKey<T>, s: seq<T>, k: nat, level: nat, c0: seq<nat>, c1: seq<nat>)
    requires k < |s| && PairTallied(rk, s, k, level, c0, c1)
    ensures PairTallied(rk, s, k + 1, level,
                        c0[Digit(rk, s[k], level) := c0[Digit(rk, s[k], level)] + 1], c1)
    ensures PairTallied(rk, s, k + 1, level,
                        c0, c1[Digit(rk, s[k], level) := c1[Digit(rk, s[k], level)] + 1])
  {
    CountsStep(rk, s, k, level);
    AddCountsBump(c0, c1, Digit(rk, s[k], level));
  }

  /** Adding one to either accumulator adds one to their sum. */
  lemma AddCountsBump(c0: seq<nat>, c1: seq<nat>, d: nat)
    requires |c0| == |c1| && d < |c0|
    ensures AddCounts(c0[d := c0[d] + 1], c1) == AddCounts(c0, c1)[d := AddCounts(c0, c1)[d] + 1]
    ensures AddCounts(c0, c1[d := c1[d] + 1]) == AddCounts(c0, c1)[d := AddCounts(c0, c1)[d] + 1]
  {
    var t := AddCounts(c0, c1);
    assert AddCounts(c0[d := c0[d] + 1], c1) == t[d := t[d] + 1];
    assert AddCounts(c0, c1[d := c1[d] + 1]) == t[d := t[d] + 1];
  }

  lemma PairTalliedInit<T>(rk: RadixKey<T>, s: seq<T>, level: nat)
    ensures PairTallied(rk, s, 0, level, seq(256, i => 0), seq(256, i => 0))
  {
    assert AddCounts(seq(256, i => 0), seq(256, i => 0)) == Counts(rk, s[..0], level);
  }

  /** The scatter invariant together with the two half-histograms of the next level. */
  ghost predicate PlacedTallied<T>(rk: RadixKey<T>, src: seq<T>, level: nat, k: nat, starts: seq<nat>,
                                   cursors: seq<nat>, d: seq<T>, c0: seq<nat>, c1: seq<nat>)
    requires k <= |src|
  {
    Placed(rk, src, level, k, starts, cursors, d) && PairTallied(rk, src, k, level + 1, c0, c1)
  }

  /** One 8-item chunk of `OutOfPlaceSortWithCounts`: items at even offsets counted
      into `c0`, odd ones into `c1`. */
  method PlaceEightAndCount<T>(rk: RadixKey<T>, src: seq<T>, level: nat, i: nat, ghost starts: seq<nat>,
                               cursors: seq<nat>, c0: seq<nat>, c1: seq<nat>, dst: array<T>)
    returns (next: seq<nat>, n0: seq<nat>, n1: seq<nat>)
    requires starts == PrefixSums(Counts(rk, src, level))
    requires i + 8 <= |src| && PlacedTallied(rk, src, level, i, starts, cursors, dst[..], c0, c1)
    modifies dst
    ensures PlacedTallied(rk, src, level, i + 8, starts, next, dst[..], n0, n1)
  {
    next, n0, n1 := cursors, c0, c1;
    var even := true;
    for j := 0 to 8
      invariant PlacedTallied(rk, src, level, i + j, starts, next, dst[..], n0, n1)
    {
      next, n0, n1 := PlaceAndCount(rk, src, level, i + j, starts, next, n0, n1, even, dst);
      even := !even;
    }
  }

  /** The remainder loop of `OutOfPlaceSortWithCounts`: every item counted into `c0`. */
  method PlaceRestAndCount<T>(rk: RadixKey<T>, src: seq<T>, level: nat, i: nat, ghost starts: seq<nat>,
                              cursors: seq<nat>, c0: seq<nat>, c1: seq<nat>, dst: array<T>)
    returns (next: seq<nat>, n0: seq<nat>, n1: seq<nat>)
    requires starts == PrefixSums(Counts(rk, src, level))
    requires i <= |src| && PlacedTallied(rk, src, level, i, starts, cursors, dst[..], c0, c1)
    modifies dst
    ensures PlacedTallied(rk, src, level, |src|, starts, next, dst[..], n0, n1)
  {
    next, n0, n1 := cursors, c0, c1;
    for k := i to |src|
      invariant PlacedTallied(rk, src, level, k, starts, next, dst[..], n0, n1)
    {
      next, n0, n1 := PlaceAndCount(rk, src, level, k, starts, next, n0, n1, true, dst);
    }
  }

  /** Places item k and counts its next-level digit into `c0` (when `first`) or `c1`. */
  method PlaceAndCount<T>(rk: RadixKey<T>, src: seq<T>, level: nat, k: nat, ghost starts: seq<nat>,
                          cursors: seq<nat>, c0: seq<nat>, c1: seq<nat>, first: bool, dst: array<T>)
    returns (next: seq<nat>, n0: seq<nat>, n1: seq<nat>)
    requires starts == PrefixSums(Counts(rk, src, level))
    requires k < |src| && PlacedTallied(rk, src, level, k, starts, cursors, dst[..], c0, c1)
    modifies dst
    ensures PlacedTallied(rk, src, level, k + 1, starts, next, dst[..], n0, n1)
    ensures next == cursors[Digit(rk, src[k], level) := cursors[Digit(rk, src[k], level)] + 1]
    ensures dst[..] == old(dst[..])[cursors[Digit(rk, src[k], level)] := src[k]]
    ensures var bn := Digit(rk, src[k], level + 1);
            if first then n0 == c0[bn := c0[bn] + 1] && n1 == c1 else n0 == c0 && n1 == c1[bn := c1[bn] + 1]
  {
    var bn := Digit(rk, src[k], level + 1);
    next := PlaceItem(rk, src, level, k, starts, cursors, dst);
    PairTalliedStep(rk, src, k, level + 1, c0, c1);
    if first {
      n0, n1 := c0[bn := c0[bn] + 1], c1;
    } else {
      n0, n1 := c0, c1[bn := c1[bn] + 1];
    }
  }
}
