/** The invariant of a counting-sort scatter: cursors start at the prefix sums of the
    histogram, each item is written at its digit's cursor, which then advances by one.
    When every item has been placed the destination is the stable grouping. */
module Scatter {
  import opened RadixKeys
  import opened Grouping

  lemma SliceUpdateOutside<U>(d: seq<U>, p: nat, x: U, lo: nat, hi: nat)
    requires lo <= hi <= |d| && p < |d| && (p < lo || hi <= p)
    ensures d[p := x][lo..hi] == d[lo..hi]
  {
  }

  lemma SliceUpdateExtend<U>(d: seq<U>, p: nat, x: U, lo: nat)
    requires lo <= p < |d|
    ensures d[p := x][lo..p + 1] == d[lo..p] + [x]
  {
  }

  /** The first k items of `src` have been scattered at `level` into `d`: the cursor of
      digit b has advanced from `starts[b]` by the number of those items with digit b,
      and the region it has passed holds exactly those items, in their order in `src`. */
  ghost predicate Placed<T>(rk: RadixKey<T>, src: seq<T>, level: nat, k: nat,
                            starts: seq<nat>, cursors: seq<nat>, d: seq<T>)
    requires k <= |src|
  {
    && |starts| == 256 && |cursors| == 256 && |d| == |src|
    && forall b :: 0 <= b < 256 ==>
         && cursors[b] == starts[b] + Count(rk, src[..k], level, b)
         && cursors[b] <= |d|
         && d[starts[b]..cursors[b]] == Bucket(rk, src[..k], level, b)
  }

  /** Nothing is placed yet: every cursor is at the start of its bucket. */
  lemma PlacedInit<T>(rk: RadixKey<T>, src: seq<T>, level: nat, starts: seq<nat>, d: seq<T>)
    requires starts == PrefixSums(Counts(rk, src, level)) && |d| == |src|
    ensures Placed(rk, src, level, 0, starts, starts, d)
  {
    var counts := Counts(rk, src, level);
    SumCounts(rk, src, level);
    forall b | 0 <= b < 256
      ensures starts[b] <= |d|
    {
      SumPrefixBound(counts, b);
    }
  }

  /** Placing item k at its digit's cursor and advancing that cursor keeps the invariant;
      the write is in range and inside the item's own bucket. */
  lemma PlacedStep<T>(rk: RadixKey<T>, src: seq<T>, level: nat, k: nat,
                      starts: seq<nat>, cursors: seq<nat>, d: seq<T>)
    requires starts == PrefixSums(Counts(rk, src, level))
    requires k < |src| && Placed(rk, src, level, k, starts, cursors, d)
    ensures cursors[Digit(rk, src[k], level)] < |d|
    ensures Placed(rk, src, level, k + 1, starts,
                   cursors[Digit(rk, src[k], level) := cursors[Digit(rk, src[k], level)] + 1],
                   d[cursors[Digit(rk, src[k], level)] := src[k]])
  {
    var b := Digit(rk, src[k], level);
    CursorInBucket(rk, src, level, k, starts, cursors, d);
    forall c | 0 <= c < 256
      ensures cursors[b := cursors[b] + 1][c] == starts[c] + Count(rk, src[..k + 1], level, c)
      ensures cursors[b := cursors[b] + 1][c] <= |d|
      ensures d[cursors[b] := src[k]][starts[c]..cursors[b := cursors[b] + 1][c]]
           == Bucket(rk, src[..k + 1], level, c)
    {
      PlacedStepAt(rk, src, level, k, starts, cursors, d, c);
    }
  }

  /** The cursor of the next item's digit is inside that digit's bucket. */
  lemma CursorInBucket<T>(rk: RadixKey<T>, src: seq<T>, level: nat, k: nat,
                          starts: seq<nat>, cursors: seq<nat>, d: seq<T>)
    requires starts == PrefixSums(Counts(rk, src, level))
    requires k < |src| && Placed(rk, src, level, k, starts, cursors, d)
    ensures cursors[Digit(rk, src[k], level)] < starts[Digit(rk, src[k], level)]
                                              + Counts(rk, src, level)[Digit(rk, src[k], level)] <= |d|
  {
    var b := Digit(rk, src[k], level);
    assert src[..k + 1] == src[..k] + [src[k]];
    SumCounts(rk, src, level);
    BucketSnoc(rk, src[..k], src[k], level, b);
    CountPrefix(rk, src, k + 1, level, b);
    SumPrefixBound(Counts(rk, src, level), b);
  }

  /** What placing item k does to the bucket of digit c. */
  lemma PlacedStepAt<T>(rk: RadixKey<T>, src: seq<T>, level: nat, k: nat,
                        starts: seq<nat>, cursors: seq<nat>, d: seq<T>, c: int)
    requires starts == PrefixSums(Counts(rk, src, level))
    requires k < |src| && Placed(rk, src, level, k, starts, cursors, d) && 0 <= c < 256
    ensures cursors[Digit(rk, src[k], level)] < |d|
    ensures cursors[Digit(rk, src[k], level) := cursors[Digit(rk, src[k], level)] + 1][c]
         == starts[c] + Count(rk, src[..k + 1], level, c)
    ensures cursors[Digit(rk, src[k], level) := cursors[Digit(rk, src[k], level)] + 1][c] <= |d|
    ensures d[cursors[Digit(rk, src[k], level)] := src[k]]
             [starts[c]..cursors[Digit(rk, src[k], level) := cursors[Digit(rk, src[k], level)] + 1][c]]
         == Bucket(rk, src[..k + 1], level, c)
  {
    var counts := Counts(rk, src, level);
    var x := src[k];
    var b := Digit(rk, x, level);
    var p := cursors[b];
    CursorInBucket(rk, src, level, k, starts, cursors, d);
    if c == b {
      PlacedStepOwn(rk, src, level, k, starts[b], p, d);
    } else {
      CountPrefix(rk, src, k, level, c);
      if c < b {
        PrefixSumsMonotone(counts, c, b);
      } else {
        PrefixSumsMonotone(counts, b, c);
      }
      PlacedStepOther(rk, src, level, k, p, starts[c], cursors[c], d, c);
    }
  }

  /** The bucket of the item's own digit grows by the item, written at its cursor. */
  lemma PlacedStepOwn<T>(rk: RadixKey<T>, src: seq<T>, level: nat, k: nat, start: nat, p: nat, d: seq<T>)
    requires k < |src| && start <= p < |d|
    requires p == start + Count(rk, src[..k], level, Digit(rk, src[k], level))
    requires d[start..p] == Bucket(rk, src[..k], level, Digit(rk, src[k], level))
    ensures p + 1 == start + Count(rk, src[..k + 1], level, Digit(rk, src[k], level))
    ensures d[p := src[k]][start..p + 1] == Bucket(rk, src[..k + 1], level, Digit(rk, src[k], level))
  {
    assert src[..k + 1] == src[..k] + [src[k]];
    BucketSnoc(rk, src[..k], src[k], level, Digit(rk, src[k], level));
    SliceUpdateExtend(d, p, src[k], start);
  }

  /** The bucket of another digit neither grows nor is written. */
  lemma PlacedStepOther<T>(rk: RadixKey<T>, src: seq<T>, level: nat, k: nat, p: nat,
                           start: nat, cursor: nat, d: seq<T>, c: int)
    requires k < |src| && c != Digit(rk, src[k], level)
    requires start <= cursor <= |d| && p < |d| && (p < start || cursor <= p)
    requires cursor == start + Count(rk, src[..k], level, c)
    requires d[start..cursor] == Bucket(rk, src[..k], level, c)
    ensures cursor == start + Count(rk, src[..k + 1], level, c)
    ensures d[p := src[k]][start..cursor] == Bucket(rk, src[..k + 1], level, c)
  {
    assert src[..k + 1] == src[..k] + [src[k]];
    BucketSnoc(rk, src[..k], src[k], level, c);
    SliceUpdateOutside(d, p, src[k], start, cursor);
  }

  /** Writes item k of `src` at its digit's cursor in `dst` and advances that cursor:
      one step of every scatter loop. */
  method PlaceItem<T>(rk: RadixKey<T>, src: seq<T>, level: nat, k: nat, ghost starts: seq<nat>,
                      cursors: seq<nat>, dst: array<T>) returns (next: seq<nat>)
    requires starts == PrefixSums(Counts(rk, src, level))
    requires k < |src| && Placed(rk, src, level, k, starts, cursors, dst[..])
    modifies dst
    ensures Placed(rk, src, level, k + 1, starts, next, dst[..])
    ensures next == cursors[Digit(rk, src[k], level) := cursors[Digit(rk, src[k], level)] + 1]
    ensures dst[..] == old(dst[..])[cursors[Digit(rk, src[k], level)] := src[k]]
  {
    var b := Digit(rk, src[k], level);
    PlacedStep(rk, src, level, k, starts, cursors, dst[..]);
    dst[cursors[b]] := src[k];
    next := cursors[b := cursors[b] + 1];
  }

  /** Once every item is placed, the destination is the stable grouping of `src`. */
  lemma PlacedDone<T>(rk: RadixKey<T>, src: seq<T>, level: nat, starts: seq<nat>,
                      cursors: seq<nat>, d: seq<T>)
    requires starts == PrefixSums(Counts(rk, src, level))
    requires Placed(rk, src, level, |src|, starts, cursors, d)
    ensures d == Grouped(rk, src, level)
  {
    PlacedLaidOut(rk, src, level, starts, cursors, d);
    GroupedAt(rk, src, level, d);
  }

  /** When every item is placed, bucket b fills the region that starts at its prefix sum. */
  lemma PlacedLaidOut<T>(rk: RadixKey<T>, src: seq<T>, level: nat, starts: seq<nat>,
                         cursors: seq<nat>, d: seq<T>)
    requires starts == PrefixSums(Counts(rk, src, level))
    requires Placed(rk, src, level, |src|, starts, cursors, d)
    ensures LaidOut(d, Buckets(rk, src, level), Counts(rk, src, level))
  {
    var counts := Counts(rk, src, level);
    assert src[..|src|] == src;
    forall b | 0 <= b < 256
      ensures Sum(counts[..b]) + counts[b] <= |d| && d[Sum(counts[..b])..Sum(counts[..b]) + counts[b]] == Buckets(rk, src, level)[b]
    {
    }
  }
}
