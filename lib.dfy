/** The MSB-then-LSD radix sort of `lib.rs`. One counting pass over the whole slice
    gathers the level-0 histogram and, for every level-0 byte m, the histograms of the
    lower levels of the items with that byte (the count map). One scatter at level 0
    then splits the slice into 256 chunks; each chunk is sorted by stable scatters at
    levels LEVELS-1 down to 1, their cursors taken from the count map. Slices and
    chunks of fewer than 32 items go to the comparison sort instead. */
module Lib {
  import opened RadixKeys
  import opened Grouping
  import opened Scatter
  import opened Lsd
  import opened ComparisonSort
  import SortUtils
  import RadixKeyImpl

  // ---------------------------------------------------------------- the count map

  /** Where the count of byte `bucket` at level `level + 1` among the items of level-0
      byte `msb` is kept. The three parts are recovered from the position. */
  function CalculatePosition(msb: nat, level: nat, bucket: nat): (p: nat)
    ensures msb < 256 && bucket < 256 ==>
              p % 256 == msb && (p / 256) % 256 == bucket && p / 65536 == level
  {
    PositionParts(msb, level, bucket);
    65536 * level + 256 * bucket + msb
  }

  lemma PositionParts(msb: nat, level: nat, bucket: nat)
    ensures msb < 256 && bucket < 256 ==>
              var p := 65536 * level + 256 * bucket + msb;
              p % 256 == msb && (p / 256) % 256 == bucket && p / 65536 == level
  {
    if msb < 256 && bucket < 256 {
      var p := 65536 * level + 256 * bucket + msb;
      var q := 256 * level + bucket;
      RadixKeyImpl.DivModUnique(p, 256, q, msb);
      RadixKeyImpl.DivModUnique(q, 256, level, bucket);
      RadixKeyImpl.DivModUnique(p, 65536, level, 256 * bucket + msb);
    }
  }

  /** Positions for the levels 1 .. levels-1 fall inside a map of `levels * 65536`
      entries; its last 65536 entries are never used. */
  lemma CalculatePositionBound(levels: nat, msb: nat, level: nat, bucket: nat)
    requires msb < 256 && bucket < 256 && level + 2 <= levels
    ensures CalculatePosition(msb, level, bucket) < 65536 * (levels - 1) < 65536 * levels
  {
  }

  /** The exclusive prefix sums of a histogram of any length, by a running total. */
  method GetPrefixSums(counts: seq<nat>) returns (sums: seq<nat>)
    ensures sums == PrefixSums(counts)
  {
    sums := [];
    var runningTotal := 0;
    for i := 0 to |counts|
      invariant |sums| == i && runningTotal == Sum(counts[..i])
      invariant forall j :: 0 <= j < i ==> sums[j] == Sum(counts[..j])
    {
      sums := sums + [runningTotal];
      SumPrefixStep(counts, i);
      runningTotal := runningTotal + counts[i];
    }
  }

  /** A zeroed count map for a key of `levels` levels. */
  function GetCountMap(levels: nat): (m: seq<nat>)
    ensures |m| == levels * 65536
    ensures forall p :: 0 <= p < |m| ==> m[p] == 0
  {
    seq(levels * 65536, p => 0)
  }

  /** `lsb` is the count map of `s`: at the position of (m, j, b) the number of items
      whose level-0 byte is m and whose level-(j+1) byte is b; zero where no level
      belongs. */
  ghost predicate CountMapOf<T>(rk: RadixKey<T>, s: seq<T>, lsb: seq<nat>)
  {
    && |lsb| == rk.levels * 65536
    && (forall m: nat, j: nat, b: nat {:trigger CalculatePosition(m, j, b)} ::
          m < 256 && j + 1 < rk.levels && b < 256 ==>
            lsb[CalculatePosition(m, j, b)] == Count(rk, Bucket(rk, s, 0, m), j + 1, b))
    && (forall p :: 0 <= p < |lsb| && p >= 65536 * (rk.levels - 1) ==> lsb[p] == 0)
  }

  /** For every lower level the count map's row of byte m adds up to the level-0 count
      of m. */
  lemma CountMapRowSum<T>(rk: RadixKey<T>, s: seq<T>, lsb: seq<nat>, m: nat, j: nat)
    requires CountMapOf(rk, s, lsb) && m < 256 && j + 1 < rk.levels
    ensures Sum(seq(256, b requires 0 <= b < 256 => lsb[CalculatePosition(m, j, b)])) == Count(rk, s, 0, m)
  {
    var row := seq(256, b requires 0 <= b < 256 => lsb[CalculatePosition(m, j, b)]);
    assert row == Counts(rk, Bucket(rk, s, 0, m), j + 1);
    SumCounts(rk, Bucket(rk, s, 0, m), j + 1);
  }

  /** Counting item k: one more item of level-0 byte m with byte b at level l exactly
      when item k has those bytes. */
  lemma PairCountStep<T>(rk: RadixKey<T>, s: seq<T>, k: nat, m: nat, l: nat, b: nat)
    requires k < |s|
    ensures Count(rk, Bucket(rk, s[..k + 1], 0, m), l, b)
         == Count(rk, Bucket(rk, s[..k], 0, m), l, b)
            + (if Digit(rk, s[k], 0) == m && Digit(rk, s[k], l) == b then 1 else 0)
  {
    assert s[..k + 1] == s[..k] + [s[k]];
    BucketSnoc(rk, s[..k], s[k], 0, m);
    if Digit(rk, s[k], 0) == m {
      BucketSnoc(rk, Bucket(rk, s[..k], 0, m), s[k], l, b);
    }
  }

  /** The histogram of level 0 and the count map of `bucket`, in one pass. */
  method GetAllCounts<T>(rk: RadixKey<T>, bucket: seq<T>) returns (msbCounts: seq<nat>, lsbCounts: seq<nat>)
    ensures msbCounts == Counts(rk, bucket, 0)
    ensures CountMapOf(rk, bucket, lsbCounts)
  {
    msbCounts := seq(256, i => 0);
    lsbCounts := GetCountMap(rk.levels);
    assert msbCounts == Counts(rk, bucket[..0], 0);
    for k := 0 to |bucket|
      invariant msbCounts == Counts(rk, bucket[..k], 0)
      invariant CountMapOf(rk, bucket[..k], lsbCounts)
    {
      var msb := Digit(rk, bucket[k], 0);
      SortUtils.CountsStep(rk, bucket, k, 0);
      msbCounts := msbCounts[msb := msbCounts[msb] + 1];
      lsbCounts := CountLevels(rk, bucket, k, lsbCounts);
    }
    assert bucket[..|bucket|] == bucket;
  }

  /** The inner loop of the counting pass: item k's byte at each level 1 .. LEVELS-1
      is counted at its position. */
  method CountLevels<T>(rk: RadixKey<T>, s: seq<T>, k: nat, lsb: seq<nat>) returns (next: seq<nat>)
    requires k < |s| && CountMapOf(rk, s[..k], lsb)
    ensures CountMapOf(rk, s[..k + 1], next)
  {
    next := CountItemLevels(rk, s[k], lsb);
    forall m: nat, j: nat, b: nat | m < 256 && j + 1 < rk.levels && b < 256
      ensures next[CalculatePosition(m, j, b)] == Count(rk, Bucket(rk, s[..k + 1], 0, m), j + 1, b)
    {
      PairCountStep(rk, s, k, m, j + 1, b);
    }
  }

  /** The loop of `CountLevels`: one more at the position of each of the item's bytes
      at levels 1 .. LEVELS-1, under its level-0 byte. */
  method CountItemLevels<T>(rk: RadixKey<T>, x: T, lsb: seq<nat>) returns (next: seq<nat>)
    requires |lsb| == rk.levels * 65536
    ensures |next| == |lsb|
    ensures forall m: nat, j: nat, b: nat {:trigger CalculatePosition(m, j, b)} ::
              m < 256 && j + 1 < rk.levels && b < 256 ==>
                next[CalculatePosition(m, j, b)]
                == lsb[CalculatePosition(m, j, b)] + (if m == Digit(rk, x, 0) && b == Digit(rk, x, j + 1) then 1 else 0)
    ensures forall p :: 0 <= p < |next| && p >= 65536 * (rk.levels - 1) ==> next[p] == lsb[p]
  {
    var msb := Digit(rk, x, 0);
    next := lsb;
    var i := 1;
    while i < rk.levels
      invariant 1 <= i && (rk.levels >= 1 ==> i <= rk.levels) && |next| == |lsb|
      invariant forall m: nat, j: nat, b: nat {:trigger CalculatePosition(m, j, b)} ::
                  m < 256 && j + 1 < rk.levels && b < 256 ==>
                    next[CalculatePosition(m, j, b)]
                    == lsb[CalculatePosition(m, j, b)]
                       + (if m == msb && j + 1 < i && b == Digit(rk, x, j + 1) then 1 else 0)
      invariant forall p :: 0 <= p < |next| && p >= 65536 * (rk.levels - 1) ==> next[p] == lsb[p]
    {
      var b := Digit(rk, x, i);
      var pos := CalculatePosition(msb, i - 1, b);
      next := next[pos := next[pos] + 1];
      i := i + 1;
    }
  }

  // ---------------------------------------------------------------- one level-0 chunk

  /** Writes item k of `src` at its digit's cursor into the region of `dst` that
      starts at `lo`: the scatter step on a chunk of the scratch buffer. */
  method PlaceItemAt<T>(rk: RadixKey<T>, src: seq<T>, level: nat, k: nat, ghost starts: seq<nat>,
                        cursors: seq<nat>, dst: array<T>, lo: nat) returns (next: seq<nat>)
    requires lo + |src| <= dst.Length
    requires starts == PrefixSums(Counts(rk, src, level))
    requires k < |src| && Placed(rk, src, level, k, starts, cursors, dst[lo..lo + |src|])
    modifies dst
    ensures Placed(rk, src, level, k + 1, starts, next, dst[lo..lo + |src|])
    ensures next == cursors[Digit(rk, src[k], level) := cursors[Digit(rk, src[k], level)] + 1]
    ensures dst[..lo] == old(dst[..lo]) && dst[lo + |src|..] == old(dst[lo + |src|..])
  {
    var b := Digit(rk, src[k], level);
    ghost var d := dst[lo..lo + |src|];
    PlacedStep(rk, src, level, k, starts, cursors, d);
    dst[lo + cursors[b]] := src[k];
    assert dst[lo..lo + |src|] == d[cursors[b] := src[k]];
    next := cursors[b := cursors[b] + 1];
  }

  /** Scatters `src` by its digit at `level` into `dst[lo..lo + |src|]`, the cursors
      starting at `prefixSums`; the rest of `dst` is left alone. */
  method ScatterRange<T>(rk: RadixKey<T>, src: seq<T>, level: nat, prefixSums: seq<nat>, dst: array<T>, lo: nat)
    requires prefixSums == PrefixSums(Counts(rk, src, level)) && lo + |src| <= dst.Length
    modifies dst
    ensures dst[lo..lo + |src|] == Grouped(rk, src, level)
    ensures LaidOut(dst[lo..lo + |src|], Buckets(rk, src, level), Counts(rk, src, level))
    ensures dst[..lo] == old(dst[..lo]) && dst[lo + |src|..] == old(dst[lo + |src|..])
  {
    var cursors := prefixSums;
    PlacedInit(rk, src, level, prefixSums, dst[lo..lo + |src|]);
    for k := 0 to |src|
      invariant Placed(rk, src, level, k, prefixSums, cursors, dst[lo..lo + |src|])
      invariant dst[..lo] == old(dst[..lo]) && dst[lo + |src|..] == old(dst[lo + |src|..])
    {
      cursors := PlaceItemAt(rk, src, level, k, prefixSums, cursors, dst, lo);
    }
    PlacedDone(rk, src, level, prefixSums, cursors, dst[lo..lo + |src|]);
    PlacedLaidOut(rk, src, level, prefixSums, cursors, dst[lo..lo + |src|]);
  }

  /** `dst[lo..hi].copy_from_slice(src[lo..hi])`. */
  method CopyRange<T>(src: array<T>, dst: array<T>, lo: nat, hi: nat)
    requires src != dst && lo <= hi <= src.Length && hi <= dst.Length
    modifies dst
    ensures dst[lo..hi] == src[lo..hi]
    ensures dst[..lo] == old(dst[..lo]) && dst[hi..] == old(dst[hi..])
  {
    forall i | lo <= i < hi {
      dst[i] := src[i];
    }
    assert dst[lo..hi] == src[lo..hi] by {
      forall i | 0 <= i < hi - lo
        ensures dst[lo..hi][i] == src[lo..hi][i]
      {
      }
    }
  }

  /** `counts` holds, for the level-0 chunk of byte `msb`, the histogram of `chunk` at
      each of the levels 1 .. level. */
  ghost predicate ChunkCounts<T>(rk: RadixKey<T>, counts: seq<nat>, msb: nat, level: nat, chunk: seq<T>)
  {
    && msb < 256
    && forall j: nat, b: nat {:trigger CalculatePosition(msb, j, b)} :: j < level && b < 256 ==>
         && CalculatePosition(msb, j, b) < |counts|
         && counts[CalculatePosition(msb, j, b)] == Count(rk, chunk, j + 1, b)
  }

  /** The count map of a slice holds the histograms of each of its level-0 chunks. */
  lemma ChunkCountsOfMap<T>(rk: RadixKey<T>, s: seq<T>, lsb: seq<nat>, m: nat)
    requires CountMapOf(rk, s, lsb) && m < 256 && rk.levels >= 1
    ensures ChunkCounts(rk, lsb, m, rk.levels - 1, Bucket(rk, s, 0, m))
  {
    forall j: nat, b: nat | j < rk.levels - 1 && b < 256
      ensures CalculatePosition(m, j, b) < |lsb|
      ensures lsb[CalculatePosition(m, j, b)] == Count(rk, Bucket(rk, s, 0, m), j + 1, b)
    {
      CalculatePositionBound(rk.levels, m, j, b);
    }
  }

  /** Reordering a chunk keeps its histograms, so the precomputed counts stay valid. */
  lemma ChunkCountsPermutation<T>(rk: RadixKey<T>, counts: seq<nat>, msb: nat, level: nat, lower: nat,
                                  s: seq<T>, t: seq<T>)
    requires ChunkCounts(rk, counts, msb, level, s) && multiset(s) == multiset(t) && lower <= level
    ensures ChunkCounts(rk, counts, msb, lower, t)
  {
    forall j: nat, b: nat | j < lower && b < 256
      ensures counts[CalculatePosition(msb, j, b)] == Count(rk, t, j + 1, b)
    {
      CountPermutation(rk, s, t, j + 1, b);
    }
  }

  /** The histogram of a chunk at `level`, read from the count map, and its prefix
      sums, by a running total. */
  method LocalCounts<T>(rk: RadixKey<T>, counts: seq<nat>, msb: nat, level: nat, ghost chunk: seq<T>)
    returns (localCounts: seq<nat>, prefixSums: seq<nat>)
    requires 1 <= level && ChunkCounts(rk, counts, msb, level, chunk)
    ensures localCounts == Counts(rk, chunk, level)
    ensures prefixSums == PrefixSums(localCounts)
  {
    localCounts, prefixSums := [], [];
    var runningTotal := 0;
    for i := 0 to 256
      invariant |localCounts| == i && |prefixSums| == i && runningTotal == Sum(localCounts)
      invariant forall b :: 0 <= b < i ==> localCounts[b] == Count(rk, chunk, level, b)
      invariant forall b :: 0 <= b < i ==> prefixSums[b] == Sum(localCounts[..b])
    {
      var count := counts[CalculatePosition(msb, level - 1, i)];
      PrefixSumsGrow(localCounts, prefixSums, count);
      prefixSums := prefixSums + [runningTotal];
      localCounts := localCounts + [count];
      runningTotal := runningTotal + count;
    }
    assert localCounts == Counts(rk, chunk, level);
  }

  /** Appending a count keeps the earlier prefix sums, and the new last one is the
      running total. */
  lemma PrefixSumsGrow(localCounts: seq<nat>, prefixSums: seq<nat>, count: nat)
    requires |prefixSums| == |localCounts|
    requires forall b :: 0 <= b < |localCounts| ==> prefixSums[b] == Sum(localCounts[..b])
    ensures forall b :: 0 <= b <= |localCounts| ==>
              (prefixSums + [Sum(localCounts)])[b] == Sum((localCounts + [count])[..b])
  {
    forall b | 0 <= b <= |localCounts|
      ensures (prefixSums + [Sum(localCounts)])[b] == Sum((localCounts + [count])[..b])
    {
      assert (localCounts + [count])[..b] == localCounts[..b];
    }
  }

  /** What `lsb_radix_sort_bucket` leaves in a chunk: the comparison sort for fewer
      than 32 items, else stable passes at `level`, `level - 1`, ..., 1. */
  function LsbResult<T>(rk: RadixKey<T>, chunk: seq<T>, level: nat): seq<T>
  {
    if |chunk| < 32 then SortUnstable(rk, chunk) else LsdPasses(rk, chunk, Down(level))
  }

  /** A reordering of items that all have byte d at `level` has only such items. */
  lemma SameDigitPermutation<T>(rk: RadixKey<T>, s: seq<T>, t: seq<T>, level: nat, d: int)
    requires multiset(s) == multiset(t)
    requires forall i :: 0 <= i < |s| ==> Digit(rk, s[i], level) == d
    ensures forall i :: 0 <= i < |t| ==> Digit(rk, t[i], level) == d
  {
    forall i | 0 <= i < |t|
      ensures Digit(rk, t[i], level) == d
    {
      assert t[i] in multiset(s);
      var j :| 0 <= j < |s| && s[j] == t[i];
    }
  }

  /** A level-0 chunk of a key with `levels` levels comes out of its per-chunk sort
      reordered and sorted on the levels 1 .. levels-1. */
  lemma LsbResultSorted<T>(rk: RadixKey<T>, chunk: seq<T>, msb: int, level: nat)
    requires level + 1 == rk.levels
    requires forall i :: 0 <= i < |chunk| ==> Digit(rk, chunk[i], 0) == msb
    ensures multiset(LsbResult(rk, chunk, level)) == multiset(chunk)
    ensures |LsbResult(rk, chunk, level)| == |chunk|
    ensures SortedBy(rk, LsbResult(rk, chunk, level), Range(1, rk.levels))
    ensures forall i :: 0 <= i < |LsbResult(rk, chunk, level)| ==> Digit(rk, LsbResult(rk, chunk, level)[i], 0) == msb
  {
    var r := LsbResult(rk, chunk, level);
    if |chunk| < 32 {
      assert Levels(rk) == [0] + Range(1, rk.levels);
      SameDigitPermutation(rk, chunk, r, 0, msb);
      SortedBySameLead(rk, r, 0, Range(1, rk.levels));
    } else {
      LsdPassesSort(rk, chunk, Down(level));
      ReverseDown(level);
      SameDigitPermutation(rk, chunk, r, 0, msb);
    }
    assert |multiset(r)| == |multiset(chunk)|;
  }

  /** `lsb_radix_sort_bucket` on `bucket[lo..hi]`, the level-0 chunk of byte `msb`,
      with `tmp[lo..hi]` as scratch space. A chunk of fewer than 32 items is sorted by
      comparison; otherwise it is scattered by the byte at `level` into the scratch
      space and copied back, and the same is done at `level - 1` unless `level` is 1.
      `ok` is false where the source computes `level - 1` with `level == 0`, which
      underflows and panics. */
  method LsbRadixSortBucket<T>(rk: RadixKey<T>, bucket: array<T>, tmp: array<T>, lo: nat, hi: nat,
                               level: nat, msb: nat, counts: seq<nat>) returns (ok: bool)
    requires bucket != tmp && lo <= hi <= bucket.Length && hi <= tmp.Length
    requires ChunkCounts(rk, counts, msb, level, bucket[lo..hi])
    modifies bucket, tmp
    ensures ok <==> (hi - lo < 32 || level >= 1)
    ensures bucket[..lo] == old(bucket[..lo]) && bucket[hi..] == old(bucket[hi..])
    ensures ok ==> bucket[lo..hi] == LsbResult(rk, old(bucket[lo..hi]), level)
    decreases level
  {
    if hi - lo < 32 {
      SortUnstableRange(rk, bucket, lo, hi);
      return true;
    }
    if level == 0 {
      return false;
    }
    ghost var chunk := bucket[lo..hi];
    LsbPass(rk, bucket, tmp, lo, hi, level, msb, counts);
    assert bucket[lo..hi] == LsdPasses(rk, chunk, [level]);
    if level == 1 {
      assert Down(1) == [1];
      return true;
    }
    ok := LsbRadixSortBucket(rk, bucket, tmp, lo, hi, level - 1, msb, counts);
    assert Down(level) == [level] + Down(level - 1);
    LsdPassesAppend(rk, chunk, [level], Down(level - 1));
  }

  /** One pass of `lsb_radix_sort_bucket`: the chunk's histogram at `level` read off the
      count map, the scatter into `tmp[lo..hi]` and the copy back. The chunk's histograms
      at the lower levels stay in the count map, the pass being a permutation. */
  method LsbPass<T>(rk: RadixKey<T>, bucket: array<T>, tmp: array<T>, lo: nat, hi: nat,
                    level: nat, msb: nat, counts: seq<nat>)
    requires bucket != tmp && lo <= hi <= bucket.Length && hi <= tmp.Length && 1 <= level
    requires ChunkCounts(rk, counts, msb, level, bucket[lo..hi])
    modifies bucket, tmp
    ensures bucket[lo..hi] == Grouped(rk, old(bucket[lo..hi]), level)
    ensures ChunkCounts(rk, counts, msb, level - 1, bucket[lo..hi])
    ensures bucket[..lo] == old(bucket[..lo]) && bucket[hi..] == old(bucket[hi..])
  {
    ghost var chunk := bucket[lo..hi];
    var localCounts, prefixSums := LocalCounts(rk, counts, msb, level, chunk);
    ScatterRange(rk, bucket[lo..hi], level, prefixSums, tmp, lo);
    assert lo + |chunk| == hi;
    CopyRange(tmp, bucket, lo, hi);
    GroupedPermutation(rk, chunk, level);
    ChunkCountsPermutation(rk, counts, msb, level, level - 1, chunk, bucket[lo..hi]);
  }

  // ---------------------------------------------------------------- the whole slice

  lemma SliceBefore<U>(d: seq<U>, d': seq<U>, lo: nat, a: nat, b: nat)
    requires a <= b <= lo <= |d| == |d'| && d'[..lo] == d[..lo]
    ensures d'[a..b] == d[a..b]
  {
    forall i | 0 <= i < b - a
      ensures d'[a..b][i] == d[a..b][i]
    {
      assert d'[a + i] == d'[..lo][a + i];
      assert d[a + i] == d[..lo][a + i];
    }
  }

  lemma SliceAfter<U>(d: seq<U>, d': seq<U>, hi: nat, a: nat, b: nat)
    requires hi <= a <= b <= |d| == |d'| && d'[hi..] == d[hi..]
    ensures d'[a..b] == d[a..b]
  {
    forall i | 0 <= i < b - a
      ensures d'[a..b][i] == d[a..b][i]
    {
      assert d'[a + i] == d'[hi..][a + i - hi];
      assert d[a + i] == d[hi..][a + i - hi];
    }
  }

  /** Replacing part k of a layout by a part of the same length, and nothing else. */
  lemma LaidOutReplace<U>(d: seq<U>, d': seq<U>, xs: seq<seq<U>>, lens: seq<nat>, k: nat, y: seq<U>)
    requires LaidOut(d, xs, lens) && k < |xs| && |d'| == |d| && |y| == lens[k]
    requires d'[..Sum(lens[..k])] == d[..Sum(lens[..k])]
    requires d'[Sum(lens[..k]) + lens[k]..] == d[Sum(lens[..k]) + lens[k]..]
    requires d'[Sum(lens[..k])..Sum(lens[..k]) + lens[k]] == y
    ensures LaidOut(d', xs[k := y], lens)
  {
    var lo := Sum(lens[..k]);
    var hi := lo + lens[k];
    forall j | 0 <= j < |xs|
      ensures Sum(lens[..j]) + lens[j] <= |d'|
      ensures d'[Sum(lens[..j])..Sum(lens[..j]) + lens[j]] == xs[k := y][j]
    {
      var a := Sum(lens[..j]);
      var b := a + lens[j];
      if j < k {
        PrefixSumsMonotone(lens, j, k);
        SliceBefore(d, d', lo, a, b);
      } else if j > k {
        PrefixSumsMonotone(lens, k, j);
        SliceAfter(d, d', hi, a, b);
      }
    }
  }

  /** The chunks after the sorts of the first m of them. */
  function ChunksSortedUpTo<T>(rk: RadixKey<T>, s: seq<T>, m: nat): (xs: seq<seq<T>>)
    requires rk.levels >= 1
    ensures |xs| == 256
  {
    seq(256, j => if j < m then LsbResult(rk, Bucket(rk, s, 0, j), rk.levels - 1) else Bucket(rk, s, 0, j))
  }

  /** The result of the MSB-then-LSD sort: the level-0 chunks, each sorted by its
      per-chunk sort, one after another. */
  function MsbThenLsd<T>(rk: RadixKey<T>, s: seq<T>): seq<T>
    requires rk.levels >= 1
  {
    Flatten(ChunksSortedUpTo(rk, s, 256))
  }

  /** The MSB-then-LSD sort reorders the slice into ascending key order. */
  lemma MsbThenLsdSorts<T>(rk: RadixKey<T>, s: seq<T>)
    requires rk.levels >= 1
    ensures multiset(MsbThenLsd(rk, s)) == multiset(s)
    ensures KeySorted(rk, MsbThenLsd(rk, s))
  {
    var xs := ChunksSortedUpTo(rk, s, 256);
    var bs := Buckets(rk, s, 0);
    forall m | 0 <= m < 256
      ensures multiset(xs[m]) == multiset(bs[m])
      ensures SortedBy(rk, xs[m], Range(1, rk.levels))
      ensures forall i :: 0 <= i < |xs[m]| ==> Digit(rk, xs[m][i], 0) == m
    {
      LsbResultSorted(rk, bs[m], m, rk.levels - 1);
    }
    FlattenSortedByDigit(rk, xs, 0, Range(1, rk.levels));
    assert Levels(rk) == [0] + Range(1, rk.levels);
    FlattenMultiset(xs, bs);
    GroupedPermutation(rk, s, 0);
  }

  /** The level-0 scatter of `radix_sort_bucket` into `tmp`, then the copy back. */
  method MsbPass<T>(rk: RadixKey<T>, bucket: array<T>, tmp: array<T>, msbCounts: seq<nat>)
    requires bucket != tmp && tmp.Length == bucket.Length
    requires msbCounts == Counts(rk, bucket[..], 0)
    modifies bucket, tmp
    ensures bucket[..] == Grouped(rk, old(bucket[..]), 0)
    ensures LaidOut(bucket[..], Buckets(rk, old(bucket[..]), 0), msbCounts)
  {
    var prefixSums := GetPrefixSums(msbCounts);
    ScatterRange(rk, bucket[..], 0, prefixSums, tmp, 0);
    CopyRange(tmp, bucket, 0, bucket.Length);
    assert bucket[..] == bucket[0..bucket.Length];
  }

  /** The per-chunk loop of `radix_sort_bucket` over the chunks of `Grouped(s, 0)`,
      each sorted from level LEVELS-1 down. `ok` is false where a chunk panics. */
  method SortChunks<T>(rk: RadixKey<T>, bucket: array<T>, tmp: array<T>, msbCounts: seq<nat>,
                       lsbCounts: seq<nat>, ghost s: seq<T>) returns (ok: bool)
    requires bucket != tmp && tmp.Length == bucket.Length && rk.levels >= 1
    requires bucket.Length == Sum(msbCounts) && LaidOut(bucket[..], Buckets(rk, s, 0), msbCounts)
    requires msbCounts == Counts(rk, s, 0) && CountMapOf(rk, s, lsbCounts)
    modifies bucket, tmp
    ensures ok <==> (rk.levels >= 2 || forall m :: 0 <= m < 256 ==> msbCounts[m] < 32)
    ensures ok ==> bucket[..] == MsbThenLsd(rk, s)
  {
    assert ChunksSortedUpTo(rk, s, 0) == Buckets(rk, s, 0);
    ok := SortEveryChunk(rk, bucket, tmp, msbCounts, lsbCounts, s);
    SmallChunksAll(msbCounts, 256);
    if ok {
      RegionsFlatten(bucket[..], ChunksSortedUpTo(rk, s, 256), msbCounts);
    }
  }

  /** The loop of `SortChunks`: chunk after chunk, stopping at the first that panics. */
  method SortEveryChunk<T>(rk: RadixKey<T>, bucket: array<T>, tmp: array<T>, msbCounts: seq<nat>,
                           lsbCounts: seq<nat>, ghost s: seq<T>) returns (ok: bool)
    requires bucket != tmp && tmp.Length == bucket.Length && rk.levels >= 1
    requires bucket.Length == Sum(msbCounts) && LaidOut(bucket[..], ChunksSortedUpTo(rk, s, 0), msbCounts)
    requires msbCounts == Counts(rk, s, 0) && CountMapOf(rk, s, lsbCounts)
    modifies bucket, tmp
    ensures ok <==> (rk.levels >= 2 || SmallChunks(msbCounts, 256))
    ensures ok ==> LaidOut(bucket[..], ChunksSortedUpTo(rk, s, 256), msbCounts)
  {
    var lo := 0;
    for m := 0 to 256
      invariant lo == Sum(msbCounts[..m]) && bucket.Length == Sum(msbCounts)
      invariant LaidOut(bucket[..], ChunksSortedUpTo(rk, s, m), msbCounts)
      invariant rk.levels >= 2 || SmallChunks(msbCounts, m)
    {
      var r := SortChunk(rk, bucket, tmp, msbCounts, lsbCounts, s, m, lo);
      if !r {
        SmallChunksStop(msbCounts, m, 256);
        return false;
      }
      SumPrefixStep(msbCounts, m);
      lo := lo + msbCounts[m];
    }
    return true;
  }

  /** The first m level-0 chunks have fewer than 32 items each. */
  predicate SmallChunks(msbCounts: seq<nat>, m: nat)
    requires m <= |msbCounts|
  {
    m == 0 || (SmallChunks(msbCounts, m - 1) && msbCounts[m - 1] < 32)
  }

  /** A large chunk stops every longer prefix from being small. */
  lemma {:induction false} SmallChunksStop(msbCounts: seq<nat>, m: nat, n: nat)
    requires m < n <= |msbCounts| && msbCounts[m] >= 32
    ensures !SmallChunks(msbCounts, n)
    decreases n
  {
    if n > m + 1 {
      SmallChunksStop(msbCounts, m, n - 1);
    }
  }

  lemma {:induction false} SmallChunksAll(msbCounts: seq<nat>, m: nat)
    requires m <= |msbCounts|
    ensures SmallChunks(msbCounts, m) <==> forall j :: 0 <= j < m ==> msbCounts[j] < 32
  {
    if m > 0 {
      SmallChunksAll(msbCounts, m - 1);
    }
  }

  /** One step of the per-chunk loop: chunk m, at `lo`, sorted in place. */
  method SortChunk<T>(rk: RadixKey<T>, bucket: array<T>, tmp: array<T>, msbCounts: seq<nat>,
                      lsbCounts: seq<nat>, ghost s: seq<T>, m: nat, lo: nat) returns (ok: bool)
    requires bucket != tmp && tmp.Length == bucket.Length && rk.levels >= 1 && m < 256
    requires msbCounts == Counts(rk, s, 0) && CountMapOf(rk, s, lsbCounts)
    requires lo == Sum(msbCounts[..m]) && bucket.Length == Sum(msbCounts)
    requires LaidOut(bucket[..], ChunksSortedUpTo(rk, s, m), msbCounts)
    modifies bucket, tmp
    ensures ok <==> (rk.levels >= 2 || msbCounts[m] < 32)
    ensures ok ==> LaidOut(bucket[..], ChunksSortedUpTo(rk, s, m + 1), msbCounts)
  {
    var hi := lo + msbCounts[m];
    ghost var chunk := Bucket(rk, s, 0, m);
    LaidOutAt(bucket[..], ChunksSortedUpTo(rk, s, m), msbCounts, m);
    assert bucket[lo..hi] == chunk;
    ChunkCountsOfMap(rk, s, lsbCounts, m);
    ghost var before := bucket[..];
    assert before[lo..hi] == chunk;
    ok := LsbRadixSortBucket(rk, bucket, tmp, lo, hi, rk.levels - 1, m, lsbCounts);
    if ok {
      ghost var after := bucket[..];
      assert after[..lo] == before[..lo] && after[hi..] == before[hi..];
      assert after[lo..hi] == LsbResult(rk, before[lo..hi], rk.levels - 1);
      ChunkSortedLayout(rk, s, m, msbCounts, lo, hi, before, after);
    }
  }

  lemma LaidOutAt<U>(d: seq<U>, xs: seq<seq<U>>, lens: seq<nat>, k: nat)
    requires LaidOut(d, xs, lens) && k < |xs|
    ensures Sum(lens[..k]) + lens[k] <= |d| && d[Sum(lens[..k])..Sum(lens[..k]) + lens[k]] == xs[k]
  {
  }

  /** Chunk m sorted in place, the rest untouched: the layout of the first m + 1 sorted
      chunks. */
  lemma ChunkSortedLayout<T>(rk: RadixKey<T>, s: seq<T>, m: nat, msbCounts: seq<nat>, lo: nat, hi: nat,
                             before: seq<T>, after: seq<T>)
    requires rk.levels >= 1 && m < 256 && msbCounts == Counts(rk, s, 0)
    requires lo == Sum(msbCounts[..m]) && hi == lo + msbCounts[m] && hi <= |before| == |after|
    requires LaidOut(before, ChunksSortedUpTo(rk, s, m), msbCounts)
    requires after[..lo] == before[..lo] && after[hi..] == before[hi..]
    requires after[lo..hi] == LsbResult(rk, before[lo..hi], rk.levels - 1)
    ensures LaidOut(after, ChunksSortedUpTo(rk, s, m + 1), msbCounts)
  {
    var chunk := Bucket(rk, s, 0, m);
    LaidOutAt(before, ChunksSortedUpTo(rk, s, m), msbCounts, m);
    LsbResultSorted(rk, chunk, m, rk.levels - 1);
    assert before[lo..hi] == chunk;
    LaidOutReplace(before, after, ChunksSortedUpTo(rk, s, m), msbCounts, m, LsbResult(rk, chunk, rk.levels - 1));
    ChunksSortedStep(rk, s, m);
  }

  lemma ChunksSortedStep<T>(rk: RadixKey<T>, s: seq<T>, m: nat)
    requires rk.levels >= 1 && m < 256
    ensures ChunksSortedUpTo(rk, s, m)[m := LsbResult(rk, Bucket(rk, s, 0, m), rk.levels - 1)]
         == ChunksSortedUpTo(rk, s, m + 1)
  {
    var xs := ChunksSortedUpTo(rk, s, m)[m := LsbResult(rk, Bucket(rk, s, 0, m), rk.levels - 1)];
    var ys := ChunksSortedUpTo(rk, s, m + 1);
    forall j | 0 <= j < 256
      ensures xs[j] == ys[j]
    {
    }
  }

  /** `radix_sort_bucket` as written: the level-0 scatter, then each chunk sorted from
      level LEVELS-1 down. It reaches `level - 1` with `level == 0`, and panics, for a
      one-level key with a chunk of 32 or more items. */
  method RadixSortBucket<T>(rk: RadixKey<T>, bucket: array<T>, tmp: array<T>, msbCounts: seq<nat>,
                            lsbCounts: seq<nat>) returns (ok: bool)
    requires bucket != tmp && tmp.Length == bucket.Length && rk.levels >= 1
    requires msbCounts == Counts(rk, bucket[..], 0) && CountMapOf(rk, bucket[..], lsbCounts)
    modifies bucket, tmp
    ensures ok <==> (rk.levels >= 2 || forall m :: 0 <= m < 256 ==> msbCounts[m] < 32)
    ensures ok ==> bucket[..] == MsbThenLsd(rk, old(bucket[..]))
  {
    ghost var s := bucket[..];
    MsbPass(rk, bucket, tmp, msbCounts);
    GroupedPermutation(rk, s, 0);
    SumCounts(rk, s, 0);
    ok := SortChunks(rk, bucket, tmp, msbCounts, lsbCounts, s);
  }

  /** For `u8` keys, 32 equal bytes already fill one level-0 chunk to the size at which
      `radix_sort_bucket` hands it to the LSD passes at level LEVELS-1 = 0, so it
      panics: the guard `ok` of `RadixSortBucket` is false for them. */
  lemma U8ChunkOf32(s: seq<byte>)
    requires |s| == 32 && forall i :: 0 <= i < |s| ==> s[i] == 0
    ensures RadixKeyImpl.U8Key.levels == 1 && Counts(RadixKeyImpl.U8Key, s, 0)[0] == 32
    ensures !(RadixKeyImpl.U8Key.levels >= 2
              || forall m :: 0 <= m < 256 ==> Counts(RadixKeyImpl.U8Key, s, 0)[m] < 32)
  {
    var rk := RadixKeyImpl.U8Key;
    forall i | 0 <= i < |s|
      ensures Digit(rk, s[i], 0) == 0
    {
    }
    BucketAll(rk, s, 0, 0);
    assert Counts(rk, s, 0)[0] == Count(rk, s, 0, 0) == 32;
  }

  /** A one-level key is sorted by the level-0 grouping alone. */
  lemma OneLevelGrouped<T>(rk: RadixKey<T>, s: seq<T>)
    requires rk.levels == 1
    ensures KeySorted(rk, Grouped(rk, s, 0))
  {
    var xs := Buckets(rk, s, 0);
    FlattenSortedByDigit(rk, xs, 0, []);
    assert Levels(rk) == [0] + [];
  }

  /** `radix_sort_bucket` with the per-chunk passes skipped for a one-level key, whose
      level-0 scatter already sorts it: it never panics and always sorts. */
  method RadixSortBucketCorrected<T>(rk: RadixKey<T>, bucket: array<T>, tmp: array<T>, msbCounts: seq<nat>,
                                     lsbCounts: seq<nat>)
    requires bucket != tmp && tmp.Length == bucket.Length && rk.levels >= 1
    requires msbCounts == Counts(rk, bucket[..], 0) && CountMapOf(rk, bucket[..], lsbCounts)
    modifies bucket, tmp
    ensures multiset(bucket[..]) == multiset(old(bucket[..]))
    ensures KeySorted(rk, bucket[..])
  {
    ghost var s := bucket[..];
    if rk.levels == 1 {
      MsbPass(rk, bucket, tmp, msbCounts);
      GroupedPermutation(rk, s, 0);
      OneLevelGrouped(rk, s);
    } else {
      var ok := RadixSortBucket(rk, bucket, tmp, msbCounts, lsbCounts);
      MsbThenLsdSorts(rk, s);
    }
  }

  /** `radix_sort_bucket_start` as written: the comparison sort below 32 items, else the
      counting pass and `radix_sort_bucket` into a scratch buffer, which panics (`ok` is
      false) for a one-level key with a level-0 chunk of 32 or more items. */
  method RadixSortBucketStart<T(0)>(rk: RadixKey<T>, bucket: array<T>) returns (ok: bool)
    requires rk.levels >= 1
    modifies bucket
    ensures ok <==> (bucket.Length < 32 || rk.levels >= 2
                     || forall m :: 0 <= m < 256 ==> Counts(rk, old(bucket[..]), 0)[m] < 32)
    ensures ok && bucket.Length < 32 ==> bucket[..] == SortUnstable(rk, old(bucket[..]))
    ensures ok && bucket.Length >= 32 ==> bucket[..] == MsbThenLsd(rk, old(bucket[..]))
    ensures ok ==> multiset(bucket[..]) == multiset(old(bucket[..])) && KeySorted(rk, bucket[..])
  {
    if bucket.Length < 32 {
      assert bucket[..] == bucket[0..bucket.Length];
      SortUnstableRange(rk, bucket, 0, bucket.Length);
      assert bucket[..] == bucket[0..bucket.Length];
      return true;
    }
    ghost var s := bucket[..];
    var msbCounts, lsbCounts := GetAllCounts(rk, bucket[..]);
    var tmp := SortUtils.GetTmpBucket<T>(bucket.Length);
    ok := RadixSortBucket(rk, bucket, tmp, msbCounts, lsbCounts);
    if ok {
      MsbThenLsdSorts(rk, s);
    }
  }

  /** `radix_sort_bucket_start` with the corrected `radix_sort_bucket`: it never panics and
      always sorts. */
  method RadixSortBucketStartCorrected<T(0)>(rk: RadixKey<T>, bucket: array<T>)
    requires rk.levels >= 1
    modifies bucket
    ensures multiset(bucket[..]) == multiset(old(bucket[..]))
    ensures KeySorted(rk, bucket[..])
  {
    if bucket.Length < 32 {
      assert bucket[..] == bucket[0..bucket.Length];
      SortUnstableRange(rk, bucket, 0, bucket.Length);
      assert bucket[..] == bucket[0..bucket.Length];
      return;
    }
    var msbCounts, lsbCounts := GetAllCounts(rk, bucket[..]);
    var tmp := SortUtils.GetTmpBucket<T>(bucket.Length);
    RadixSortBucketCorrected(rk, bucket, tmp, msbCounts, lsbCounts);
  }

  /** `radix_sort_inner` as written, which `radix_sort_unstable` of both `RadixSort` impls
      calls. A key without levels panics before anything is sorted; a one-level key
      panics inside `radix_sort_bucket` once a slice of 32 or more items has 32 or more
      items of one byte. Otherwise the slice is sorted. */
  method RadixSortInner<T(0)>(rk: RadixKey<T>, bucket: array<T>) returns (panicked: bool)
    modifies bucket
    ensures panicked <==> (rk.levels == 0
                           || (rk.levels == 1 && bucket.Length >= 32
                               && exists m :: 0 <= m < 256 && Counts(rk, old(bucket[..]), 0)[m] >= 32))
    ensures rk.levels == 0 ==> bucket[..] == old(bucket[..])
    ensures !panicked ==> bucket[..] == if bucket.Length < 32 then SortUnstable(rk, old(bucket[..]))
                                        else MsbThenLsd(rk, old(bucket[..]))
    ensures !panicked ==> multiset(bucket[..]) == multiset(old(bucket[..])) && KeySorted(rk, bucket[..])
  {
    if rk.levels == 0 {
      return true;
    }
    var ok := RadixSortBucketStart(rk, bucket);
    panicked := !ok;
  }

  /** `radix_sort_inner` over the corrected `radix_sort_bucket`: only a key without levels
      panics, and every other slice is sorted. */
  method RadixSortInnerCorrected<T(0)>(rk: RadixKey<T>, bucket: array<T>) returns (panicked: bool)
    modifies bucket
    ensures panicked <==> rk.levels == 0
    ensures panicked ==> bucket[..] == old(bucket[..])
    ensures !panicked ==> multiset(bucket[..]) == multiset(old(bucket[..])) && KeySorted(rk, bucket[..])
  {
    if rk.levels == 0 {
      return true;
    }
    RadixSortBucketStartCorrected(rk, bucket);
    return false;
  }
}
