/** Histogram and offset utilities of `utils/sort_utils.rs`: prefix sums and end offsets
    of a 256-entry histogram, byte counting, ceiling division, per-tile histograms and
    their sum, and the homogeneity test. Values of type `usize` are unbounded here. */
module SortUtils {
  import opened RadixKeys
  import opened Grouping

  /** The exclusive prefix sums of a 256-entry histogram, by a running total. */
  method GetPrefixSums(counts: seq<nat>) returns (sums: seq<nat>)
    requires |counts| == 256
    ensures sums == PrefixSums(counts)
  {
    sums := seq(256, i => 0);
    var runningTotal := 0;
    for i := 0 to 256
      invariant |sums| == 256
      invariant runningTotal == Sum(counts[..i])
      invariant forall j :: 0 <= j < i ==> sums[j] == Sum(counts[..j])
    {
      sums := sums[i := runningTotal];
      SumPrefixStep(counts, i);
      runningTotal := runningTotal + counts[i];
    }
  }

  /** Exclusive prefix sums start at 0, grow by one entry at a time and never decrease. */
  lemma PrefixSumsShape(counts: seq<nat>)
    ensures |counts| > 0 ==> PrefixSums(counts)[0] == 0
    ensures forall i :: 0 <= i < |counts| - 1 ==>
              PrefixSums(counts)[i + 1] == PrefixSums(counts)[i] + counts[i]
    ensures forall i, j :: 0 <= i <= j < |counts| ==> PrefixSums(counts)[i] <= PrefixSums(counts)[j]
  {
    var ps := PrefixSums(counts);
    forall i | 0 <= i < |counts| - 1
      ensures ps[i + 1] == ps[i] + counts[i]
    {
      SumPrefixStep(counts, i);
    }
    forall i, j | 0 <= i <= j < |counts|
      ensures ps[i] <= ps[j]
    {
      if i < j {
        PrefixSumsMonotone(counts, i, j);
      }
    }
  }

  /** `get_end_offsets`. The end of each bucket: the start of the next one, and for the
      last bucket its start plus its count. What the offsets are for prefix sums of the
      counts is stated by `EndOffsetsOfPrefixSums`. */
  function GetEndOffsets(counts: seq<nat>, prefixSums: seq<nat>): (r: seq<nat>)
    requires |counts| == 256 && |prefixSums| == 256
    ensures |r| == 256
  {
    prefixSums[1..256] + [counts[255] + prefixSums[255]]
  }

  /** With the prefix sums of `counts`, every end offset is the bucket's start plus its
      count, and the last one is the total number of items. */
  lemma EndOffsetsOfPrefixSums(counts: seq<nat>)
    requires |counts| == 256
    ensures forall i :: 0 <= i < 256 ==>
              GetEndOffsets(counts, PrefixSums(counts))[i] == PrefixSums(counts)[i] + counts[i]
    ensures GetEndOffsets(counts, PrefixSums(counts))[255] == Sum(counts)
  {
    PrefixSumsShape(counts);
    SumPrefixStep(counts, 255);
    assert counts[..256] == counts;
  }

  /** Counting one more item adds one to the histogram entry of its digit. */
  lemma CountsStep<T>(rk: RadixKey<T>, s: seq<T>, i: nat, level: nat)
    requires i < |s|
    ensures Counts(rk, s[..i + 1], level)
         == Counts(rk, s[..i], level)[Digit(rk, s[i], level) := Counts(rk, s[..i], level)[Digit(rk, s[i], level)] + 1]
  {
    CountStep(rk, s, i, level);
  }

  /** Counting one more item adds one to its own digit's count only. */
  lemma CountStep<T>(rk: RadixKey<T>, s: seq<T>, i: nat, level: nat)
    requires i < |s|
    ensures forall c :: Count(rk, s[..i + 1], level, c)
                     == Count(rk, s[..i], level, c) + (if Digit(rk, s[i], level) == c then 1 else 0)
  {
    assert s[..i + 1] == s[..i] + [s[i]];
    forall c
      ensures Count(rk, s[..i + 1], level, c)
           == Count(rk, s[..i], level, c) + (if Digit(rk, s[i], level) == c then 1 else 0)
    {
      BucketSnoc(rk, s[..i], s[i], level, c);
    }
  }

  /** Counting an item with digit `d` into accumulator `j` adds one to column `d` of the
      accumulators' elementwise sum and leaves the other columns alone. */
  lemma {:induction false} ColumnSumBump(acc: seq<seq<nat>>, j: nat, d: nat, c: nat)
    requires j < |acc| && forall t :: 0 <= t < |acc| ==> |acc[t]| == 256
    requires d < 256 && c < 256
    ensures ColumnSum(acc[j := acc[j][d := acc[j][d] + 1]], c)
         == ColumnSum(acc, c) + (if c == d then 1 else 0)
    decreases |acc|
  {
    var acc' := acc[j := acc[j][d := acc[j][d] + 1]];
    var n := |acc| - 1;
    if j == n {
      assert acc'[..n] == acc[..n];
    } else {
      assert acc'[..n] == acc[..n][j := acc[j][d := acc[j][d] + 1]];
      ColumnSumBump(acc[..n], j, d, c);
    }
  }

  lemma {:induction false} ColumnSumZero(acc: seq<seq<nat>>)
    requires forall t :: 0 <= t < |acc| ==> acc[t] == seq(256, i => 0)
    ensures forall c :: 0 <= c < 256 ==> ColumnSum(acc, c) == 0
    decreases |acc|
  {
    if |acc| > 0 {
      ColumnSumZero(acc[..|acc| - 1]);
    }
  }

  lemma ColumnSumFour(acc: seq<seq<nat>>, c: nat)
    requires |acc| == 4 && forall t :: 0 <= t < 4 ==> |acc[t]| == 256
    requires c < 256
    ensures ColumnSum(acc, c) == acc[0][c] + acc[1][c] + acc[2][c] + acc[3][c]
  {
    var a3, a2, a1 := acc[..3], acc[..2], acc[..1];
    assert a3[..2] == a2 && a2[..1] == a1 && |a1[..0]| == 0;
    assert ColumnSum(a1, c) == acc[0][c];
    assert ColumnSum(a2, c) == acc[0][c] + acc[1][c];
    assert ColumnSum(a3, c) == acc[0][c] + acc[1][c] + acc[2][c];
  }

  /** The accumulators `acc` together hold the histogram of the first k items. */
  ghost predicate Tallied<T>(rk: RadixKey<T>, s: seq<T>, k: nat, level: nat, acc: seq<seq<nat>>)
    requires k <= |s|
  {
    && |acc| == 4 && (forall t :: 0 <= t < 4 ==> |acc[t]| == 256)
    && forall c :: 0 <= c < 256 ==> ColumnSum(acc, c) == Count(rk, s[..k], level, c)
  }

  /** Counting item k into accumulator j. */
  lemma TalliedStep<T>(rk: RadixKey<T>, s: seq<T>, k: nat, level: nat, acc: seq<seq<nat>>, j: nat)
    requires k < |s| && j < 4 && Tallied(rk, s, k, level, acc)
    ensures Tallied(rk, s, k + 1, level,
                    acc[j := acc[j][Digit(rk, s[k], level) := acc[j][Digit(rk, s[k], level)] + 1]])
  {
    var d := Digit(rk, s[k], level);
    var acc' := acc[j := acc[j][d := acc[j][d] + 1]];
    CountStep(rk, s, k, level);
    forall c | 0 <= c < 256
      ensures ColumnSum(acc', c) == Count(rk, s[..k + 1], level, c)
    {
      ColumnSumBump(acc, j, d, c);
    }
  }

  lemma TalliedInit<T>(rk: RadixKey<T>, s: seq<T>, level: nat)
    ensures Tallied(rk, s, 0, level, [seq(256, i => 0), seq(256, i => 0), seq(256, i => 0), seq(256, i => 0)])
  {
    ColumnSumZero([seq(256, i => 0), seq(256, i => 0), seq(256, i => 0), seq(256, i => 0)]);
  }

  /** The histogram of `bucket` at `level`. Items of each 4-item chunk go to the four
      accumulators `counts_1` ... `counts_4` (here `acc[0]` ... `acc[3]`) by position,
      the remainder goes to the first, and the four are then added up. */
  method GetCounts<T>(rk: RadixKey<T>, bucket: seq<T>, level: nat) returns (counts: seq<nat>)
    ensures counts == Counts(rk, bucket, level)
  {
    var zero: seq<nat> := seq(256, i => 0);
    var acc := [zero, zero, zero, zero];
    TalliedInit(rk, bucket, level);
    var i := 0;
    while i + 4 <= |bucket|
      invariant i <= |bucket| && Tallied(rk, bucket, i, level, acc)
      decreases |bucket| - i
    {
      acc := TallyFour(rk, bucket, level, i, acc);
      i := i + 4;
    }
    while i < |bucket|
      invariant i <= |bucket| && Tallied(rk, bucket, i, level, acc)
    {
      var d := Digit(rk, bucket[i], level);
      TalliedStep(rk, bucket, i, level, acc, 0);
      acc := acc[0 := acc[0][d := acc[0][d] + 1]];
      i := i + 1;
    }
    assert bucket[..i] == bucket;
    counts := SumFour(rk, bucket, level, acc);
  }

  /** One 4-item chunk of `GetCounts`: item j of the chunk counted into accumulator j. */
  method TallyFour<T>(rk: RadixKey<T>, bucket: seq<T>, level: nat, i: nat, acc: seq<seq<nat>>)
    returns (next: seq<seq<nat>>)
    requires i + 4 <= |bucket| && Tallied(rk, bucket, i, level, acc)
    ensures Tallied(rk, bucket, i + 4, level, next)
  {
    next := acc;
    for j := 0 to 4
      invariant Tallied(rk, bucket, i + j, level, next)
    {
      var d := Digit(rk, bucket[i + j], level);
      TalliedStep(rk, bucket, i + j, level, next, j);
      next := next[j := next[j][d := next[j][d] + 1]];
    }
  }

  /** The final loop of `GetCounts`: the four accumulators added up entry by entry. */
  method SumFour<T>(rk: RadixKey<T>, bucket: seq<T>, level: nat, acc: seq<seq<nat>>) returns (counts: seq<nat>)
    requires Tallied(rk, bucket, |bucket|, level, acc)
    ensures counts == Counts(rk, bucket, level)
  {
    assert bucket[..|bucket|] == bucket;
    counts := acc[0];
    for c := 0 to 256
      invariant |counts| == 256
      invariant forall e :: 0 <= e < c ==> counts[e] == Count(rk, bucket, level, e)
      invariant forall e :: c <= e < 256 ==> counts[e] == acc[0][e]
    {
      ColumnSumFour(acc, c);
      counts := counts[c := counts[c] + acc[1][c]];
      counts := counts[c := counts[c] + acc[2][c]];
      counts := counts[c := counts[c] + acc[3][c]];
    }
  }

  /** The number of tiles of `a` items of at most `b` each. */
  function Cdiv(a: nat, b: nat): (r: nat)
    requires b > 0
    ensures r * b >= a
    ensures a > 0 ==> (r - 1) * b < a
    ensures a == 0 ==> r == 0
  {
    CdivBounds(a, b);
    (a + b - 1) / b
  }

  lemma CdivBounds(a: nat, b: nat)
    requires b > 0
    ensures ((a + b - 1) / b) * b >= a
    ensures a > 0 ==> ((a + b - 1) / b - 1) * b < a
    ensures a == 0 ==> (a + b - 1) / b == 0
  {
    var q := (a + b - 1) / b;
    var m := (a + b - 1) % b;
    assert a + b - 1 == q * b + m;
    assert (q - 1) * b == q * b - b;
  }

  /** The only number of tiles that covers `a` items, `b` per tile, with no tile to spare. */
  lemma CdivUnique(a: nat, b: nat, r: nat)
    requires b > 0 && r * b >= a && (a > 0 ==> (r - 1) * b < a) && (a == 0 ==> r == 0)
    ensures Cdiv(a, b) == r
  {
    var q := Cdiv(a, b);
    if q < r {
      MulMono(q, r - 1, b);
    } else if r < q {
      MulMono(r, q - 1, b);
    }
  }

  lemma MulMono(x: int, y: int, b: nat)
    requires x <= y
    ensures x * b <= y * b
  {
    assert y * b - x * b == (y - x) * b;
  }

  /** The consecutive tiles of `s` of `size` items each, the last possibly shorter. */
  function Tiles<T>(s: seq<T>, size: nat): (r: seq<seq<T>>)
    requires size > 0
    ensures Flatten(r) == s
    ensures forall t :: 0 <= t < |r| ==> 0 < |r[t]| <= size
    decreases |s|
  {
    if |s| == 0 then
      []
    else if |s| <= size then
      FlattenSingle(s);
      [s]
    else
      var rest := Tiles(s[size..], size);
      FlattenCons(s[..size], rest);
      assert s[..size] + s[size..] == s;
      [s[..size]] + rest
  }

  /** One more full tile of `b` items needs one more tile. */
  lemma CdivStep(a: nat, b: nat)
    requires 0 < b < a
    ensures Cdiv(a, b) == Cdiv(a - b, b) + 1
  {
    var q := Cdiv(a - b, b);
    assert (q + 1) * b == q * b + b;
    assert q * b == (q - 1) * b + b;
    CdivUnique(a, b, q + 1);
  }

  /** There are ceil(|s| / size) tiles. */
  lemma {:induction false} TilesCount<T>(s: seq<T>, size: nat)
    requires size > 0
    ensures |Tiles(s, size)| == Cdiv(|s|, size)
    decreases |s|
  {
    if |s| == 0 {
      CdivUnique(0, size, 0);
    } else if |s| <= size {
      CdivUnique(|s|, size, 1);
    } else {
      TilesCount(s[size..], size);
      CdivStep(|s|, size);
    }
  }

  /** Every tile but the last holds exactly `size` items. */
  lemma {:induction false} TilesFull<T>(s: seq<T>, size: nat)
    requires size > 0
    ensures forall t :: 0 <= t < |Tiles(s, size)| - 1 ==> |Tiles(s, size)[t]| == size
    decreases |s|
  {
    if |s| > size {
      var r := Tiles(s, size);
      var rest := Tiles(s[size..], size);
      TilesFull(s[size..], size);
      assert r == [s[..size]] + rest;
      forall t | 0 <= t < |r| - 1
        ensures |r[t]| == size
      {
        if t > 0 {
          assert r[t] == rest[t - 1];
        }
      }
    }
  }

  /** One histogram per tile of `tile_size` items, in tile order. */
  method GetTileCounts<T>(rk: RadixKey<T>, bucket: seq<T>, tileSize: nat, level: nat)
    returns (tileCounts: seq<seq<nat>>)
    requires tileSize > 0
    ensures |tileCounts| == |Tiles(bucket, tileSize)| == Cdiv(|bucket|, tileSize)
    ensures forall t :: 0 <= t < |tileCounts| ==> |tileCounts[t]| == 256
    ensures forall t :: 0 <= t < |tileCounts| ==> tileCounts[t] == Counts(rk, Tiles(bucket, tileSize)[t], level)
  {
    var tiles := Tiles(bucket, tileSize);
    TilesCount(bucket, tileSize);
    tileCounts := [];
    for t := 0 to |tiles|
      invariant |tileCounts| == t
      invariant forall u :: 0 <= u < t ==> tileCounts[u] == Counts(rk, tiles[u], level)
    {
      var c := GetCounts(rk, tiles[t], level);
      tileCounts := tileCounts + [c];
    }
  }

  /** The elementwise sum over the rows `rows` of column i. */
  function ColumnSum(rows: seq<seq<nat>>, i: nat): nat
    requires forall t :: 0 <= t < |rows| ==> i < |rows[t]|
  {
    if |rows| == 0 then 0 else ColumnSum(rows[..|rows| - 1], i) + rows[|rows| - 1][i]
  }

  /** The elementwise sum of the tile histograms; there must be at least one tile. */
  method AggregateTileCounts(tileCounts: seq<seq<nat>>) returns (out: seq<nat>)
    requires |tileCounts| >= 1
    requires forall t :: 0 <= t < |tileCounts| ==> |tileCounts[t]| == 256
    ensures |out| == 256
    ensures forall i :: 0 <= i < 256 ==> out[i] == ColumnSum(tileCounts, i)
  {
    out := tileCounts[0];
    for t := 1 to |tileCounts|
      invariant |out| == 256
      invariant forall i :: 0 <= i < 256 ==> out[i] == ColumnSum(tileCounts[..t], i)
    {
      assert tileCounts[..t + 1][..t] == tileCounts[..t];
      for i := 0 to 256
        invariant |out| == 256
        invariant forall j :: 0 <= j < i ==> out[j] == ColumnSum(tileCounts[..t + 1], j)
        invariant forall j :: i <= j < 256 ==> out[j] == ColumnSum(tileCounts[..t], j)
      {
        out := out[i := out[i] + tileCounts[t][i]];
      }
    }
    assert tileCounts[..|tileCounts|] == tileCounts;
  }

  /** The count of a concatenation of parts is the sum of the parts' counts. */
  lemma {:induction false} CountFlatten<T>(rk: RadixKey<T>, xs: seq<seq<T>>, level: nat, b: int)
    requires 0 <= b < 256
    ensures Count(rk, Flatten(xs), level, b)
         == ColumnSum(seq(|xs|, t requires 0 <= t < |xs| => Counts(rk, xs[t], level)), b)
    decreases |xs|
  {
    if |xs| > 0 {
      var n := |xs| - 1;
      var rows := seq(|xs|, t requires 0 <= t < |xs| => Counts(rk, xs[t], level));
      assert rows[..n] == seq(n, t requires 0 <= t < n => Counts(rk, xs[..n][t], level));
      CountFlatten(rk, xs[..n], level, b);
      assert Flatten(xs) == Flatten(xs[..n]) + xs[n];
      CountAppend(rk, Flatten(xs[..n]), xs[n], level, b);
    }
  }

  /** Summing the histograms of the tiles gives the histogram of the whole slice. */
  lemma AggregateOfTiles<T>(rk: RadixKey<T>, bucket: seq<T>, tileSize: nat, level: nat, tileCounts: seq<seq<nat>>)
    requires tileSize > 0
    requires |tileCounts| == |Tiles(bucket, tileSize)|
    requires forall t :: 0 <= t < |tileCounts| ==> |tileCounts[t]| == 256
    requires forall t :: 0 <= t < |tileCounts| ==> tileCounts[t] == Counts(rk, Tiles(bucket, tileSize)[t], level)
    ensures forall i :: 0 <= i < 256 ==> ColumnSum(tileCounts, i) == Count(rk, bucket, level, i)
  {
    var tiles := Tiles(bucket, tileSize);
    assert tileCounts == seq(|tiles|, t requires 0 <= t < |tiles| => Counts(rk, tiles[t], level));
    forall i | 0 <= i < 256
      ensures ColumnSum(tileCounts, i) == Count(rk, bucket, level, i)
    {
      CountFlatten(rk, tiles, level, i);
    }
  }

  /** At most one of the counts is nonzero. */
  ghost predicate AtMostOneNonzero(counts: seq<nat>)
  {
    forall i, j :: 0 <= i < j < |counts| && counts[i] > 0 ==> counts[j] == 0
  }

  /** Whether every item of the bucket has the same digit: at most one count is
      nonzero (an empty histogram counts as homogeneous). */
  method IsHomogenousBucket(counts: seq<nat>) returns (r: bool)
    requires |counts| == 256
    ensures r <==> AtMostOneNonzero(counts)
  {
    var seen := false;
    ghost var first := 0;
    for i := 0 to 256
      invariant !seen ==> forall j :: 0 <= j < i ==> counts[j] == 0
      invariant seen ==> first < i && counts[first] > 0
      invariant seen ==> forall j :: 0 <= j < i && j != first ==> counts[j] == 0
    {
      if counts[i] > 0 {
        if seen {
          return false;
        } else {
          seen := true;
          first := i;
        }
      }
    }
    return true;
  }

  /** A scratch buffer of `len` items whose contents are arbitrary. */
  method GetTmpBucket<T(0)>(len: nat) returns (tmp: array<T>)
    ensures fresh(tmp) && tmp.Length == len
  {
    tmp := new T[len];
  }
}
