/** Plateaus (`detect_plateaus` / `apply_plateaus` in `utils/sort_utils.rs`): long runs of
    items sharing the digit at one level, found by sampling, and swapped as a block into
    the region their digit's bucket starts at. */
module Plateaus {
  import opened RadixKeys
  import opened Grouping
  import opened SortUtils

  /** A run `[l, r)` of items whose digit is `radix`. */
  datatype Plateau = Plateau(radix: byte, l: nat, r: nat)

  /** Every item of `s[a..b]` has digit `radix` at `level`. */
  ghost predicate AllRadix<T>(rk: RadixKey<T>, s: seq<T>, level: nat, radix: byte, a: nat, b: nat)
  {
    forall i :: a <= i < b && i < |s| ==> Digit(rk, s[i], level) == radix
  }

  /** What `detect_plateaus` promises of each plateau it reports. */
  ghost predicate ValidPlateau<T>(rk: RadixKey<T>, s: seq<T>, level: nat, minSize: nat, p: Plateau)
  {
    && p.l < p.r <= |s|
    && p.r - p.l >= minSize
    && AllRadix(rk, s, level, p.radix, p.l, p.r)
  }

  /** A candidate of the sampling phase: samples `s` and `e`, `e` at least one sampling
      step after `s`, both carrying `radix`. */
  ghost predicate ValidCandidate<T>(rk: RadixKey<T>, bucket: seq<T>, level: nat, minSize: nat,
                                    c: (byte, nat, nat))
  {
    && c.1 + minSize <= c.2 < |bucket|
    && Digit(rk, bucket[c.1], level) == c.0
    && Digit(rk, bucket[c.2], level) == c.0
  }

  /** Phase 1 of `detect_plateaus`: walks the samples `0, minSize, 2 minSize, ...` and
      records, as (radix, start, end), each run of equal sampled digits that spans at
      least two samples, at the point where the sampled digit changes. */
  method FindCandidates<T>(rk: RadixKey<T>, bucket: seq<T>, level: nat, minSize: nat)
    returns (candidates: seq<(byte, nat, nat)>)
    requires minSize > 0
    ensures forall k :: 0 <= k < |candidates| ==> ValidCandidate(rk, bucket, level, minSize, candidates[k])
  {
    candidates := [];
    var current: byte := 0;
    var start: Option<nat> := None;
    var end: Option<nat> := None;
    var i := 0;
    while i < |bucket|
      invariant start.Some? ==> end.Some? && start.value <= end.value < |bucket|
      invariant start.Some? ==> end.value + minSize <= i
      invariant start.Some? ==> end.value == start.value || start.value + minSize <= end.value
      invariant start.Some? ==> Digit(rk, bucket[start.value], level) == current
      invariant start.Some? ==> Digit(rk, bucket[end.value], level) == current
      invariant forall k :: 0 <= k < |candidates| ==> ValidCandidate(rk, bucket, level, minSize, candidates[k])
      decreases |bucket| - i
    {
      var b := Digit(rk, bucket[i], level);
      if b == current {
        end := Some(i);
      } else {
        if start.Some? && end.Some? && start.value != end.value {
          candidates := candidates + [(current, start.value, end.value)];
        }
        current := b;
        start := Some(i);
        end := Some(i);
      }
      i := i + minSize;
    }
  }

  /** The walk to the left of a sample at `from`: steps down until it meets an item
      without `radix` (the result is then just past it) or reaches `stop` (the result
      is then `from` unchanged). */
  method ExploreLeft<T>(rk: RadixKey<T>, bucket: seq<T>, level: nat, radix: byte, from: nat, stop: nat)
    returns (bound: nat)
    requires stop <= from <= |bucket|
    ensures stop <= bound <= from && AllRadix(rk, bucket, level, radix, bound, from)
    ensures || (stop < bound && Digit(rk, bucket[bound - 1], level) != radix)
            || (bound == from && AllRadix(rk, bucket, level, radix, stop, from))
  {
    bound := from;
    var i := from;
    while i != stop
      invariant stop <= i <= from && AllRadix(rk, bucket, level, radix, i, from)
      decreases i
    {
      i := i - 1;
      if Digit(rk, bucket[i], level) != radix {
        bound := i + 1;
        return;
      }
    }
  }

  /** The walk to the right of a sample at `from`: steps up until it meets an item
      without `radix` (the result is then its index) or reaches the last item (the
      result is then `from` unchanged). */
  method ExploreRight<T>(rk: RadixKey<T>, bucket: seq<T>, level: nat, radix: byte, from: nat)
    returns (bound: nat)
    requires from < |bucket|
    ensures from <= bound < |bucket| && AllRadix(rk, bucket, level, radix, from + 1, bound)
    ensures || (from < bound && Digit(rk, bucket[bound], level) != radix)
            || (bound == from && AllRadix(rk, bucket, level, radix, from + 1, |bucket|))
  {
    bound := from;
    var i := from;
    while i != |bucket| - 1
      invariant from <= i < |bucket| && AllRadix(rk, bucket, level, radix, from + 1, i + 1)
      decreases |bucket| - i
    {
      i := i + 1;
      if Digit(rk, bucket[i], level) != radix {
        bound := i;
        return;
      }
    }
  }

  /** `detect_plateaus`: nothing when `|bucket| >> 4 < 128`; otherwise each candidate is
      widened to the left and right of both its samples, and the runs found around them
      that are long enough are reported. */
  method DetectPlateaus<T>(rk: RadixKey<T>, bucket: seq<T>, level: nat) returns (plateaus: seq<Plateau>)
    ensures |bucket| / 16 < 128 ==> plateaus == []
    ensures forall k :: 0 <= k < |plateaus| ==> ValidPlateau(rk, bucket, level, |bucket| / 16, plateaus[k])
  {
    var minSize := |bucket| / 16;
    plateaus := [];
    if minSize < 128 {
      return;
    }
    var candidates := FindCandidates(rk, bucket, level, minSize);
    for k := 0 to |candidates|
      invariant forall q :: 0 <= q < |plateaus| ==> ValidPlateau(rk, bucket, level, minSize, plateaus[q])
    {
      var (radix, s, e) := candidates[k];
      assert ValidCandidate(rk, bucket, level, minSize, candidates[k]);
      var sl := ExploreLeft(rk, bucket, level, radix, s, 0);
      var sr := ExploreRight(rk, bucket, level, radix, s);
      assert AllRadix(rk, bucket, level, radix, sl, sr);
      if sr > e {
        // One plateau across both samples.
        plateaus := plateaus + [Plateau(radix, sl, sr)];
        continue;
      } else if sr - sl >= minSize {
        // A plateau around the start sample only.
        plateaus := plateaus + [Plateau(radix, sl, sr)];
      }
      if e - sr < minSize {
        // The end sample cannot be a separate plateau.
        continue;
      }
      var el := ExploreLeft(rk, bucket, level, radix, e, sr);
      var er := ExploreRight(rk, bucket, level, radix, e);
      assert AllRadix(rk, bucket, level, radix, el, er);
      if er - el >= minSize {
        plateaus := plateaus + [Plateau(radix, el, er)];
      }
    }
  }

  datatype Option<A> = None | Some(value: A)

  /** `s` with the equal-length, non-overlapping ranges `[a, a+n)` and `[b, b+n)` exchanged. */
  function SwapRanges<T>(s: seq<T>, a: nat, b: nat, n: nat): (t: seq<T>)
    requires a + n <= b || b + n <= a
    requires a + n <= |s| && b + n <= |s|
    ensures |t| == |s|
  {
    seq(|s|, i requires 0 <= i < |s| =>
      if a <= i < a + n then s[b + (i - a)] else if b <= i < b + n then s[a + (i - b)] else s[i])
  }

  /** The five pieces of `s` around the ranges `[x, x+n)` and `[y, y+n)`, with the two ranges
      exchanged: what a swap of the two ranges leaves. */
  lemma SwapRangesPieces<T>(s: seq<T>, x: nat, y: nat, n: nat)
    requires x + n <= y && y + n <= |s|
    ensures SwapRanges(s, x, y, n) == s[..x] + s[y..y + n] + s[x + n..y] + s[x..x + n] + s[y + n..]
    ensures SwapRanges(s, y, x, n) == SwapRanges(s, x, y, n)
  {
    var t := s[..x] + s[y..y + n] + s[x + n..y] + s[x..x + n] + s[y + n..];
    forall i | 0 <= i < |s|
      ensures t[i] == SwapRanges(s, x, y, n)[i]
    {
      if i < x {
      } else if i < x + n {
        assert t[i] == s[y..y + n][i - x];
      } else if i < y {
        assert t[i] == s[x + n..y][i - x - n];
      } else if i < y + n {
        assert t[i] == s[x..x + n][i - y];
      } else {
        assert t[i] == s[y + n..][i - y - n];
      }
    }
  }

  /** Exchanging two ranges only reorders the items. */
  lemma SwapRangesPermutation<T>(s: seq<T>, a: nat, b: nat, n: nat)
    requires a + n <= b || b + n <= a
    requires a + n <= |s| && b + n <= |s|
    ensures multiset(SwapRanges(s, a, b, n)) == multiset(s)
  {
    var x, y := if a + n <= b then a else b, if a + n <= b then b else a;
    SwapRangesPieces(s, x, y, n);
    var p0, p1, p2, p3, p4 := s[..x], s[x..x + n], s[x + n..y], s[y..y + n], s[y + n..];
    assert s == p0 + p1 + p2 + p3 + p4;
    ExchangeMultiset(p0, p1, p2, p3, p4);
  }

  lemma ExchangeMultiset<T>(p0: seq<T>, p1: seq<T>, p2: seq<T>, p3: seq<T>, p4: seq<T>)
    ensures multiset(p0 + p3 + p2 + p1 + p4) == multiset(p0 + p1 + p2 + p3 + p4)
  {
    calc {
      multiset(p0 + p3 + p2 + p1 + p4);
      multiset(p0) + multiset(p3) + multiset(p2) + multiset(p1) + multiset(p4);
      multiset(p0 + p1 + p2 + p3 + p4);
    }
  }

  /** Two equal-length ranges `[a, a+n)` and `[b, b+n)` to exchange. */
  datatype Swap = Swap(a: nat, b: nat, n: nat)

  /** The exchange `apply_plateaus` performs to move the run `[l, r)` to start at `ws`:
      none when it is already in place, the whole run when the run and its destination
      do not overlap, and otherwise only the parts that stick out on either side. */
  function PlateauSwap(l: nat, r: nat, ws: nat): (sw: Swap)
    requires l <= r
    ensures sw.a + sw.n <= sw.b || sw.b + sw.n <= sw.a
    ensures sw.a + sw.n <= r || sw.a + sw.n <= ws + (r - l)
    ensures sw.a + sw.n <= if r > ws + (r - l) then r else ws + (r - l)
    ensures sw.b + sw.n <= if r > ws + (r - l) then r else ws + (r - l)
  {
    var we := ws + (r - l);
    if r == ws && l == we then Swap(l, l, 0)
    else if r < ws || l > we then Swap(l, ws, r - l)
    else if r < we then Swap(l, r, ws - l)
    else Swap(we, ws, r - we)
  }

  /** After the exchange every slot of the destination holds an item taken from the run. */
  lemma PlateauSwapFills(l: nat, r: nat, ws: nat, i: nat)
    requires l <= r && ws <= i < ws + (r - l)
    ensures var sw := PlateauSwap(l, r, ws);
            if sw.a <= i < sw.a + sw.n then l <= sw.b + (i - sw.a) < r
            else if sw.b <= i < sw.b + sw.n then l <= sw.a + (i - sw.b) < r
            else l <= i < r
  {
  }

  /** One plateau `[l, r)` moved to start at `ws`, by the exchange `PlateauSwap` picks.
      What the move does is stated by `MovePlateauPermutation` and `MovePlateauFills`,
      and `MovePlateauInPlace` performs it. */
  function MovePlateau<T>(s: seq<T>, l: nat, r: nat, ws: nat): (t: seq<T>)
    requires l <= r <= |s| && ws + (r - l) <= |s|
    ensures |t| == |s|
  {
    var sw := PlateauSwap(l, r, ws);
    SwapRanges(s, sw.a, sw.b, sw.n)
  }

  /** Moving a plateau keeps the multiset of items. */
  lemma MovePlateauPermutation<T>(s: seq<T>, l: nat, r: nat, ws: nat)
    requires l <= r <= |s| && ws + (r - l) <= |s|
    ensures multiset(MovePlateau(s, l, r, ws)) == multiset(s)
  {
    var sw := PlateauSwap(l, r, ws);
    SwapRangesPermutation(s, sw.a, sw.b, sw.n);
  }

  /** A run holding only `radix`, once moved, fills its destination with `radix`. */
  lemma MovePlateauFills<T>(rk: RadixKey<T>, s: seq<T>, level: nat, radix: byte, l: nat, r: nat, ws: nat)
    requires l <= r <= |s| && ws + (r - l) <= |s|
    requires AllRadix(rk, s, level, radix, l, r)
    ensures AllRadix(rk, MovePlateau(s, l, r, ws), level, radix, ws, ws + (r - l))
  {
    forall i | ws <= i < ws + (r - l)
      ensures Digit(rk, MovePlateau(s, l, r, ws)[i], level) == radix
    {
      PlateauSwapFills(l, r, ws, i);
    }
  }

  /** Length of a plateau (zero for a reversed one). */
  function Len(p: Plateau): nat
  {
    if p.l <= p.r then p.r - p.l else 0
  }

  /** Total length of the plateaus of `radix` in `ps`. */
  function RadixTotal(ps: seq<Plateau>, radix: byte): nat
  {
    if |ps| == 0 then 0 else (if ps[0].radix == radix then Len(ps[0]) else 0) + RadixTotal(ps[1..], radix)
  }

  /** Every plateau lies in the slice, and so does its destination, which starts where
      the earlier plateaus of its digit left off: what the slicing in `apply_plateaus`
      needs so as not to panic. */
  ghost predicate PlateausFit(starts: seq<nat>, ps: seq<Plateau>, n: nat)
    decreases |ps|
  {
    && |starts| == 256
    && (|ps| > 0 ==>
          && ps[0].l <= ps[0].r <= n
          && starts[ps[0].radix] + Len(ps[0]) <= n
          && PlateausFit(Advance(starts, ps[0]), ps[1..], n))
  }

  /** The bucket starts after plateau `p` has been written at its digit's start. */
  function Advance(starts: seq<nat>, p: Plateau): (r: seq<nat>)
    requires |starts| == 256
    ensures |r| == 256
    ensures forall b :: 0 <= b < 256 && b != p.radix ==> r[b] == starts[b]
  {
    starts[p.radix := starts[p.radix] + Len(p)]
  }

  /** The starts after all of `ps`: each digit's start advanced by the total length of
      that digit's plateaus. */
  function AdvanceAll(starts: seq<nat>, ps: seq<Plateau>): (r: seq<nat>)
    requires |starts| == 256
    ensures |r| == 256
    decreases |ps|
  {
    if |ps| == 0 then starts else AdvanceAll(Advance(starts, ps[0]), ps[1..])
  }

  lemma {:induction false} AdvanceAllTotal(starts: seq<nat>, ps: seq<Plateau>)
    requires |starts| == 256
    ensures forall b: byte :: AdvanceAll(starts, ps)[b] == starts[b] + RadixTotal(ps, b)
    decreases |ps|
  {
    if |ps| > 0 {
      AdvanceAllTotal(Advance(starts, ps[0]), ps[1..]);
    }
  }

  /** The slice after moving the plateaus `ps` in order, each to the current start of
      its digit's bucket, which then advances past it. */
  ghost function Applied<T>(s: seq<T>, starts: seq<nat>, ps: seq<Plateau>): (t: seq<T>)
    requires PlateausFit(starts, ps, |s|)
    ensures |t| == |s|
    decreases |ps|
  {
    if |ps| == 0 then s
    else Applied(MovePlateau(s, ps[0].l, ps[0].r, starts[ps[0].radix]), Advance(starts, ps[0]), ps[1..])
  }

  lemma {:induction false} AppliedPermutation<T>(s: seq<T>, starts: seq<nat>, ps: seq<Plateau>)
    requires PlateausFit(starts, ps, |s|)
    ensures multiset(Applied(s, starts, ps)) == multiset(s)
    decreases |ps|
  {
    if |ps| > 0 {
      var moved := MovePlateau(s, ps[0].l, ps[0].r, starts[ps[0].radix]);
      MovePlateauPermutation(s, ps[0].l, ps[0].r, starts[ps[0].radix]);
      AppliedPermutation(moved, Advance(starts, ps[0]), ps[1..]);
    }
  }

  /** Exchanges `bucket[a..a+n]` and `bucket[b..b+n]` through two temporary copies. */
  method SwapInPlace<T>(bucket: array<T>, a: nat, b: nat, n: nat)
    requires a + n <= b || b + n <= a
    requires a + n <= bucket.Length && b + n <= bucket.Length
    modifies bucket
    ensures bucket[..] == SwapRanges(old(bucket[..]), a, b, n)
  {
    var tmpFirst := bucket[a..a + n];
    var tmpSecond := bucket[b..b + n];
    forall i | a <= i < a + n {
      bucket[i] := tmpSecond[i - a];
    }
    forall i | b <= i < b + n {
      bucket[i] := tmpFirst[i - b];
    }
  }

  /** The body of the loop of `apply_plateaus`: moves the run `[l, r)` to start at `ws`. */
  method MovePlateauInPlace<T>(bucket: array<T>, l: nat, r: nat, ws: nat)
    requires l <= r <= bucket.Length && ws + (r - l) <= bucket.Length
    modifies bucket
    ensures bucket[..] == MovePlateau(old(bucket[..]), l, r, ws)
  {
    var len := r - l;
    var writeStart := ws;
    var writeEnd := writeStart + len;
    ghost var sw := PlateauSwap(l, r, ws);
    if r == writeStart && l == writeEnd {
      // Already in place.
      assert sw == Swap(l, l, 0);
      SwapNothing(bucket[..], l);
    } else if r < writeStart || l > writeEnd {
      // The run and its destination do not overlap.
      assert sw == Swap(l, writeStart, len);
      SwapInPlace(bucket, l, writeStart, len);
    } else if r < writeEnd {
      // The right side of the run overlaps the destination.
      assert sw == Swap(l, r, writeStart - l);
      SwapInPlace(bucket, l, r, writeStart - l);
    } else {
      // The left side of the run overlaps the destination.
      assert sw == Swap(writeEnd, writeStart, r - writeEnd);
      SwapInPlace(bucket, writeEnd, writeStart, r - writeEnd);
    }
  }

  /** Exchanging two empty ranges changes nothing. */
  lemma SwapNothing<T>(s: seq<T>, a: nat)
    requires a <= |s|
    ensures SwapRanges(s, a, a, 0) == s
  {
    forall i | 0 <= i < |s|
      ensures SwapRanges(s, a, a, 0)[i] == s[i]
    {
    }
  }

  /** `apply_plateaus`: moves each plateau to the current start of its digit's bucket,
      advancing that start by the plateau's length; returns the advanced prefix sums and
      the end offsets of the unmodified counts. */
  method ApplyPlateaus<T>(bucket: array<T>, counts: seq<nat>, plateaus: seq<Plateau>)
    returns (prefixSums: seq<nat>, endOffsets: seq<nat>)
    requires |counts| == 256
    requires PlateausFit(PrefixSums(counts), plateaus, bucket.Length)
    modifies bucket
    ensures bucket[..] == Applied(old(bucket[..]), PrefixSums(counts), plateaus)
    ensures multiset(bucket[..]) == multiset(old(bucket[..]))
    ensures prefixSums == AdvanceAll(PrefixSums(counts), plateaus)
    ensures forall b: byte :: prefixSums[b] == PrefixSums(counts)[b] + RadixTotal(plateaus, b)
    ensures endOffsets == GetEndOffsets(counts, PrefixSums(counts))
  {
    ghost var s0 := bucket[..];
    ghost var starts := PrefixSums(counts);
    prefixSums := GetPrefixSums(counts);
    endOffsets := GetEndOffsets(counts, prefixSums);
    for k := 0 to |plateaus|
      invariant PlateausFit(prefixSums, plateaus[k..], bucket.Length)
      invariant Applied(bucket[..], prefixSums, plateaus[k..]) == Applied(s0, starts, plateaus)
      invariant AdvanceAll(prefixSums, plateaus[k..]) == AdvanceAll(starts, plateaus)
    {
      var p := plateaus[k];
      assert plateaus[k..][0] == p && plateaus[k..][1..] == plateaus[k + 1..];
      var len := p.r - p.l;
      var writeStart := prefixSums[p.radix];
      prefixSums := prefixSums[p.radix := prefixSums[p.radix] + len];
      MovePlateauInPlace(bucket, p.l, p.r, writeStart);
    }
    AppliedPermutation(s0, starts, plateaus);
    AdvanceAllTotal(starts, plateaus);
  }
}
