/** The default tuner of `tuner.rs`: which algorithm sorts a bucket, from its length,
    its depth (the number of levels below the current one) and whether one byte value
    dominates its histogram. */
module Tuner {

  const USIZE_MAX: int := 0xFFFF_FFFF_FFFF_FFFF

  /** A 64-bit `usize`. */
  type usize = x: int | 0 <= x <= USIZE_MAX

  datatype TuningParams = TuningParams(threads: usize, level: usize, totalLevels: usize,
                                       inputLen: usize, parentLen: usize, inPlace: bool)

  datatype Algorithm =
    | MtOopSort
    | MtLsbSort
    | ScanningSort
    | RecombinatingSort
    | ComparativeSort
    | LrLsbSort
    | LsbSort
    | RegionsSort
    | SkaSort

  /** Some byte value occurs at least `threshold` times. */
  ghost predicate Skewed(counts: seq<usize>, threshold: int)
  {
    exists i :: 0 <= i < |counts| && counts[i] >= threshold
  }

  /** A bucket counts as skewed when it has at least 5000 items and a byte value holds
      at least twice its share, `(len / 256) * 2` items. */
  ghost predicate Distributed(len: usize, counts: seq<usize>)
  {
    len >= 5_000 && Skewed(counts, (len / 256) * 2)
  }

  /** The decision table of `pick_algorithm_standard`; the final `else` of each length
      match is its `_` arm. */
  function StandardTable(len: usize, depth: int, skewed: bool): Algorithm
  {
    if len <= 128 then ComparativeSort
    else if skewed then
      if depth == 0 then
        if len <= 200_000 then LrLsbSort
        else if len <= 350_000 then SkaSort
        else if len <= 4_000_000 then MtLsbSort
        else if len <= USIZE_MAX then RegionsSort
        else LrLsbSort
      else
        if len <= 200_000 then LrLsbSort
        else if len <= 800_000 then SkaSort
        else if len <= 5_000_000 then RecombinatingSort
        else if len <= USIZE_MAX then RegionsSort
        else LrLsbSort
    else if depth > 0 then
      if len <= 200_000 then LsbSort
      else if len <= 800_000 then SkaSort
      else if len <= 50_000_000 then RecombinatingSort
      else if len <= USIZE_MAX then ScanningSort
      else LsbSort
    else
      if len <= 150_000 then LsbSort
      else if len <= 260_000 then SkaSort
      else if len <= 50_000_000 then RecombinatingSort
      else if len <= USIZE_MAX then ScanningSort
      else LsbSort
  }

  /** The decision table of `pick_algorithm_in_place`. */
  function InPlaceTable(len: usize, depth: int, skewed: bool): Algorithm
  {
    if len <= 128 then ComparativeSort
    else if skewed then
      if depth == 0 then
        if len <= 50_000 then LrLsbSort
        else if len <= 1_000_000 then SkaSort
        else if len <= USIZE_MAX then RegionsSort
        else LsbSort
      else
        if len <= 50_000 then LrLsbSort
        else if len <= 1_000_000 then SkaSort
        else if len <= USIZE_MAX then RegionsSort
        else LsbSort
    else if depth == 0 then
      if len <= 50_000 then LsbSort
      else if len <= 1_000_000 then SkaSort
      else if len <= USIZE_MAX then RegionsSort
      else LsbSort
    else
      if len <= 50_000 then LsbSort
      else if len <= 1_000_000 then SkaSort
      else if len <= USIZE_MAX then RegionsSort
      else LsbSort
  }

  /** The scan of the histogram for a dominating byte value, stopping at the first. */
  method FindSkew(counts: seq<usize>, threshold: int) returns (found: bool)
    ensures found <==> Skewed(counts, threshold)
  {
    var i := 0;
    while i < |counts|
      invariant 0 <= i <= |counts|
      invariant forall j :: 0 <= j < i ==> counts[j] < threshold
    {
      if counts[i] >= threshold {
        return true;
      }
      i := i + 1;
    }
    return false;
  }

  /** `pick_algorithm_standard`. The depth `total_levels - level - 1` is computed in
      `usize` once the bucket has more than 128 items, so the level must then be below
      the total. */
  method PickAlgorithmStandard(p: TuningParams, counts: seq<usize>) returns (a: Algorithm)
    requires p.inputLen <= 128 || p.level < p.totalLevels
    ensures a == StandardTable(p.inputLen, p.totalLevels - p.level - 1, Distributed(p.inputLen, counts))
  {
    if p.inputLen <= 128 {
      return ComparativeSort;
    }
    var depth: usize := p.totalLevels - p.level - 1;
    var skewed := false;
    if p.inputLen >= 5_000 {
      var distributionThreshold := (p.inputLen / 256) * 2;
      skewed := FindSkew(counts, distributionThreshold);
    }
    a := StandardTable(p.inputLen, depth, skewed);
  }

  /** `pick_algorithm_in_place`, with the same depth computation. */
  method PickAlgorithmInPlace(p: TuningParams, counts: seq<usize>) returns (a: Algorithm)
    requires p.inputLen <= 128 || p.level < p.totalLevels
    ensures a == InPlaceTable(p.inputLen, p.totalLevels - p.level - 1, Distributed(p.inputLen, counts))
  {
    if p.inputLen <= 128 {
      return ComparativeSort;
    }
    var depth: usize := p.totalLevels - p.level - 1;
    var skewed := false;
    if p.inputLen >= 5_000 {
      var distributionThreshold := (p.inputLen / 256) * 2;
      skewed := FindSkew(counts, distributionThreshold);
    }
    a := InPlaceTable(p.inputLen, depth, skewed);
  }

  /** `Tuner::pick_algorithm` of the default tuner: the in-place table when the caller
      sorts in place, the standard one otherwise. */
  method PickAlgorithm(p: TuningParams, counts: seq<usize>) returns (a: Algorithm)
    requires p.inputLen <= 128 || p.level < p.totalLevels
    ensures p.inPlace ==> a == InPlaceTable(p.inputLen, p.totalLevels - p.level - 1, Distributed(p.inputLen, counts))
    ensures !p.inPlace ==> a == StandardTable(p.inputLen, p.totalLevels - p.level - 1, Distributed(p.inputLen, counts))
  {
    if p.inPlace {
      a := PickAlgorithmInPlace(p, counts);
    } else {
      a := PickAlgorithmStandard(p, counts);
    }
  }

  // ---------------------------------------------------------------- what the tables say

  /** Where each algorithm is chosen by the standard table, at a non-negative depth:
      the comparison sort exactly up to 128 items, the multi-threaded LSB sort only for
      a skewed last level of 350 001 to 4 000 000 items, the scanning sort only for an
      unskewed bucket above 50 000 000 items, and the out-of-place multi-threaded sort
      never. */
  lemma StandardTableRegions(len: usize, depth: int, skewed: bool)
    requires depth >= 0
    ensures var a := StandardTable(len, depth, skewed);
            && (a == ComparativeSort <==> len <= 128)
            && (a == LrLsbSort <==> 128 < len <= 200_000 && skewed)
            && (a == LsbSort <==> !skewed && 128 < len && (if depth > 0 then len <= 200_000 else len <= 150_000))
            && (a == SkaSort <==>
                  if skewed then 200_000 < len <= (if depth == 0 then 350_000 else 800_000)
                  else (if depth > 0 then 200_000 else 150_000) < len <= (if depth > 0 then 800_000 else 260_000))
            && (a == MtLsbSort <==> skewed && depth == 0 && 350_000 < len <= 4_000_000)
            && (a == RecombinatingSort <==>
                  if skewed then depth > 0 && 800_000 < len <= 5_000_000
                  else (if depth > 0 then 800_000 else 260_000) < len <= 50_000_000)
            && (a == RegionsSort <==> skewed && len > (if depth == 0 then 4_000_000 else 5_000_000))
            && (a == ScanningSort <==> !skewed && len > 50_000_000)
            && a != MtOopSort
  {
  }

  /** Where each algorithm is chosen by the in-place table: the depth plays no part, and
      only the comparison, LSB, LR-LSB, ska and regions sorts are ever picked. */
  lemma InPlaceTableRegions(len: usize, depth: int, skewed: bool)
    ensures var a := InPlaceTable(len, depth, skewed);
            && (a == ComparativeSort <==> len <= 128)
            && (a == LrLsbSort <==> 128 < len <= 50_000 && skewed)
            && (a == LsbSort <==> 128 < len <= 50_000 && !skewed)
            && (a == SkaSort <==> 50_000 < len <= 1_000_000)
            && (a == RegionsSort <==> len > 1_000_000)
            && a != MtOopSort && a != MtLsbSort && a != ScanningSort && a != RecombinatingSort
  {
  }

  /** The in-place choice is the same at every depth. */
  lemma InPlaceIgnoresDepth(len: usize, d: int, d': int, skewed: bool)
    ensures InPlaceTable(len, d, skewed) == InPlaceTable(len, d', skewed)
  {
  }
}
