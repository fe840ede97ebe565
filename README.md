# rdst radix sort, modelled in Dafny

rdst sorts slices of any key type that can hand out its bytes. A key reports `LEVELS`,
its number of bytes, and `get_level(l)`, the byte at level `l`, with level 0 the most
significant. The key order is the lexicographic order of these bytes from the most
significant to the least significant. `radix_sort_unstable` sends short slices to the
standard comparison sort. Every other slice gets one counting pass that gathers all the
histograms it will need. A scatter by the level-0 byte then splits the slice into 256
chunks, and each chunk is sorted by stable least-significant-byte scatters, one per lower
level.

This project models that sorting engine without its threads:

- the histogram and offset utilities;
- the counting-sort scatter (`out_of_place_sort`) and the MSB-then-LSD sort of `lib.rs`;
- the tile-based LSD sort `mt_lsb_sort`, with its two-ended scatter per tile, and its
  two adapters;
- plateau detection and the move of plateaus into their buckets;
- the tuner's decision tables and the `director` dispatch;
- the `RadixKey` implementations of the unsigned integers and of byte arrays.

Items have an abstract type `T` with a `RadixKey<T>`, which holds the number of levels
and the byte of an item at a level (`RadixKeys.Digit`). They are ordered by
`RadixKeys.LexLe` over a list of levels. `KeySorted` means ascending over the levels
`0 .. LEVELS-1`, and `SortedBy(s, ls)` means ascending over the levels `ls` in that order.

The central definition is `Grouping.Grouped(s, level)`: the 256 byte buckets of `s` at
`level`, each in input order, placed one after another. Every scatter in the crate is
proved to produce exactly this sequence, so they are all stable permutations that group
by byte in ascending order. `Lsd.LsdPasses` applies such passes for a list of levels, and
`Lsd.LsdPassesSort` proves the result is ordered by those levels in reverse.

`mt_lsb_sort_adapter` and `mt_oop_sort_adapter` count levels from the least significant
byte upwards. Their results are therefore stated relative to the order in which the
passes run, not as ascending numeric order.

Slices, histograms and scratch buffers are `array`s or `seq`s, so each operation keeps
the crate's names and loops. Integers are unbounded, except for the tuner's `usize`,
which is 64 bits wide.

## Model

| member | source | states |
|---|---|---|
| RadixKeys.LexLeTotal | src/lib.rs:27-28 | the byte order relates any two items one way or the other |
| RadixKeys.LexLeTransitive | src/lib.rs:27-28 | the byte order is transitive |
| RadixKeys.LexLeAntisymmetric | src/lib.rs:27-28 | two items each at most the other agree on every compared byte |
| Grouping.GroupedPermutation | src/sorts/out_of_place_sort.rs:18-50 | grouping by a byte keeps the multiset and the length |
| Grouping.GroupedStable | src/sorts/out_of_place_sort.rs:18-50 | after grouping, the items of each byte are exactly those of the input, in input order |
| Grouping.GroupedOrdered | src/sorts/out_of_place_sort.rs:18-50 | after grouping, the byte at the level never decreases along the sequence |
| Grouping.SumCounts | src/utils/sort_utils.rs:68-106 | the 256 counts of a slice add up to its length |
| Grouping.CountsPermutation | src/lib.rs:518-527 | reordering a slice does not change its histogram |
| Grouping.RegionsFlatten | src/sorts/out_of_place_sort.rs:13-50 | a sequence holding each part at its prefix-sum offset, with nothing left over, is the parts one after another |
| Lsd.LsdStep | src/lib.rs:529-539 | a stable pass at level l put in front of an order by ks gives the order by [l] + ks |
| Lsd.LsdPassesSort | src/sorts/mt_lsb_sort.rs:118-149 | passes at the levels ls give a permutation ordered by ls reversed |
| Lsd.LsdPassesAppend | src/sorts/mt_lsb_sort.rs:126-140 | running passes for a + c is running those for a, then those for c |
| Scatter.PlacedStep | src/lib.rs:476-489 | writing an item at its byte's cursor and bumping that cursor keeps every bucket's region filled with its items so far, in order |
| Scatter.PlacedDone | src/lib.rs:476-489 | once every item is placed, the destination is the grouping of the source |
| Scatter.PlaceItem | src/sorts/out_of_place_sort.rs:46-50 | one write of the scatter: the item goes to its byte's cursor, which advances by one |
| Lib.CalculatePosition | src/lib.rs:134-139 | for bytes below 256, the position gives back msb, bucket and level, so it is injective |
| Lib.CalculatePositionBound | src/lib.rs:155-163 | positions for levels 1 .. LEVELS-1 lie below (LEVELS-1)·65536, inside the count map |
| Lib.GetPrefixSums | src/lib.rs:142-152 | the exclusive running sums of a histogram of any length |
| Lib.GetCountMap | src/lib.rs:155-163 | a map of LEVELS·65536 zeros |
| Lib.GetAllCounts | src/lib.rs:258-277 | the level-0 histogram, and for each level-0 byte m and lower level i, the count of each byte b at level i among the items with byte m |
| Lib.CountLevels | src/lib.rs:267-275 | counting one more item keeps the count map exact for the longer prefix |
| Lib.CountMapRowSum | src/lib.rs:258-277 | each row of the count map sums to msb_counts[m] |
| Lib.ScatterRange | src/lib.rs:529-536 | the chunk's destination range becomes the chunk grouped at the level and laid out by its histogram; the rest is unchanged |
| Lib.LocalCounts | src/lib.rs:518-527 | the 256 counts read from the count map are the chunk's histogram at the level, and prefix_sums are their running sums |
| Lib.LsbPass | src/lib.rs:518-539 | one pass leaves the chunk grouped at the level, and the count map still describes the chunk at all lower levels |
| Lib.ChunkCountsPermutation | src/lib.rs:518-545 | a pass only reorders the chunk, so the precomputed counts stay valid |
| Lib.LsbRadixSortBucket | src/lib.rs:504-546 | panics (ok is false) exactly for a chunk of 32 or more items at level 0; otherwise the comparison sort below 32 items, else passes at level, level-1, .., 1; outside the chunk nothing changes |
| Lib.LsbResultSorted | src/lib.rs:504-546 | the per-chunk result is a permutation, ordered by levels 1 .. LEVELS-1, and keeps the level-0 byte |
| Lib.MsbPass | src/lib.rs:476-492 | the bucket becomes its level-0 grouping, laid out according to msb_counts |
| Lib.SortChunks | src/lib.rs:494-501 | no panic iff LEVELS >= 2 or every level-0 chunk has fewer than 32 items; then the bucket is the chunks each sorted by its per-chunk sort |
| Lib.SortEveryChunk | src/lib.rs:494-501 | the chunk loop: it runs to completion iff LEVELS >= 2 or every chunk has fewer than 32 items, and then every chunk holds its per-chunk result in the level-0 layout |
| Lib.CopyRange | src/lib.rs:492 | copy_from_slice: the destination range equals the source range and nothing else in the destination changes |
| Lib.SortChunk | src/lib.rs:494-501 | sorting chunk m keeps the layout and turns chunk m into its per-chunk result |
| Lib.RadixSortBucket | src/lib.rs:468-502 | the same panic condition, and the result is the MSB-then-LSD sort of the input |
| Lib.MsbThenLsdSorts | src/lib.rs:468-546 | the MSB-then-LSD result is a permutation in ascending key order |
| Lib.U8ChunkOf32 | src/lib.rs:500 | 32 zero bytes of u8 fill one level-0 chunk, so the guard of RadixSortBucket fails |
| Lib.RadixSortBucketCorrected | src/lib.rs:468-502 | with one-level keys left at the level-0 scatter, the sort always gives a permutation in ascending key order |
| Lib.RadixSortBucketStart | src/lib.rs:293-314 | as written: the comparison sort below 32 items, else the counting pass and radix_sort_bucket; panics (ok is false) iff the slice has 32 or more items, LEVELS is 1 and some level-0 byte occurs 32 or more times; otherwise the result is the comparison sort or the MSB-then-LSD sort of the input, a permutation in ascending key order |
| Lib.RadixSortBucketStartCorrected | src/lib.rs:293-314 | the same entry over the corrected radix_sort_bucket: always a permutation in ascending key order |
| Lib.RadixSortInner | src/lib.rs:548-581 | as written: panics iff LEVELS is 0, or LEVELS is 1 and a slice of 32 or more items has some level-0 byte 32 or more times; with no levels the slice is left as it was; without a panic the slice is the comparison sort (below 32 items) or the MSB-then-LSD sort of the input, a permutation in ascending key order |
| Lib.RadixSortInnerCorrected | src/lib.rs:548-557 | over the corrected radix_sort_bucket: panics iff LEVELS is 0, leaving the slice as it was; otherwise a permutation in ascending key order |
| SortUtils.GetPrefixSums | src/utils/sort_utils.rs:8-18 | the exclusive running sums of the 256 counts |
| SortUtils.PrefixSumsShape | src/utils/sort_utils.rs:8-18 | sums[0] is 0, sums[i+1] is sums[i] + counts[i], and the sums never decrease |
| SortUtils.EndOffsetsOfPrefixSums | src/utils/sort_utils.rs:21-28 | end[i] is prefix[i] + counts[i], and end[255] is the total count |
| SortUtils.GetCounts | src/utils/sort_utils.rs:68-106 | the histogram of the slice at the level |
| SortUtils.TallyFour | src/utils/sort_utils.rs:82-92 | four items go to the four partial counters, whose column sums stay the histogram of the prefix |
| SortUtils.SumFour | src/utils/sort_utils.rs:99-103 | merging the four partial counters gives the histogram of the whole slice |
| SortUtils.Cdiv | src/utils/sort_utils.rs:314-316 | the ceiling of a/b: r·b >= a, (r-1)·b < a when a > 0, and 0 for a = 0 |
| SortUtils.CdivBounds | src/utils/sort_utils.rs:314-316 | (a + b - 1) / b meets those bounds |
| SortUtils.CdivUnique | src/utils/sort_utils.rs:314-316 | those bounds single out one value |
| SortUtils.Tiles | src/utils/sort_utils.rs:319-337 | the tiles cover the slice in order, each of 1 to tile_size items |
| SortUtils.TilesCount | src/utils/sort_utils.rs:319-337 | there are cdiv(len, tile_size) tiles |
| SortUtils.TilesFull | src/utils/sort_utils.rs:319-337 | every tile but the last holds tile_size items |
| SortUtils.GetTileCounts | src/utils/sort_utils.rs:319-337 | one 256-entry histogram per tile, cdiv(len, tile_size) of them, each that tile's histogram |
| SortUtils.AggregateTileCounts | src/utils/sort_utils.rs:340-349 | entry i is the sum of entry i over all tiles; at least one tile is required |
| SortUtils.AggregateOfTiles | src/utils/sort_utils.rs:319-349 | summing the tile histograms gives the histogram of the whole slice |
| SortUtils.IsHomogenousBucket | src/utils/sort_utils.rs:352-365 | true iff at most one count is nonzero, including the all-zero histogram |
| SortUtils.GetTmpBucket | src/utils/sort_utils.rs:110-121 | a fresh buffer of the requested length |
| OutOfPlaceSort.OutOfPlaceSort | src/sorts/out_of_place_sort.rs:5-51 | dst becomes the stable grouping of src at the level; src is a value and cannot change |
| OutOfPlaceSort.PlaceEight | src/sorts/out_of_place_sort.rs:18-44 | one block of eight writes extends the placed prefix by eight items |
| OutOfPlaceSort.PlaceRest | src/sorts/out_of_place_sort.rs:46-50 | the remainder completes the placement |
| OutOfPlaceSort.OutOfPlaceSortWithCounts | src/sorts/out_of_place_sort.rs:54-128 | the same dst as out_of_place_sort, and the returned counts are the histogram of src at level + 1; requires level + 1 < LEVELS |
| OutOfPlaceSort.PlaceAndCount | src/sorts/out_of_place_sort.rs:89-121 | one write and one count: the cursor, the destination slot and one accumulator advance, and the two accumulators still sum to the next-level histogram of the prefix |
| OutOfPlaceSort.PlaceEightAndCount | src/sorts/out_of_place_sort.rs:71-113 | a block of eight writes and counts keeps placement and tally exact |
| OutOfPlaceSort.PlaceRestAndCount | src/sorts/out_of_place_sort.rs:115-121 | the remainder completes placement and tally |
| OutOfPlaceSort.MergeCounts | src/sorts/out_of_place_sort.rs:123-125 | the elementwise sum of the two accumulators |
| OutOfPlaceSort.AddCountsBump | src/sorts/out_of_place_sort.rs:89-125 | bumping either accumulator bumps their sum in the same place |
| Plateaus.FindCandidates | src/utils/sort_utils.rs:143-160 | every candidate (radix, start, end) has end at least min_size past start and inside the bucket, and both sampled items have byte radix |
| Plateaus.ExploreLeft | src/utils/sort_utils.rs:165-179 | walks left to the first index whose byte differs, or to its stop, and every item passed has the byte |
| Plateaus.ExploreRight | src/utils/sort_utils.rs:182-195 | walks right to the first index whose byte differs, or to the last index, and every item passed has the byte |
| Plateaus.DetectPlateaus | src/utils/sort_utils.rs:123-255 | no plateaus when len >> 4 < 128; otherwise every (radix, l, r) has l < r <= len, r - l >= len >> 4, and only items of byte radix in [l, r) |
| Plateaus.PlateauSwap | src/utils/sort_utils.rs:275-307 | the four branches of the move as one exchange: its two ranges never overlap and both lie below the end of the run or of its destination, whichever is later |
| Plateaus.SwapRangesPermutation | src/utils/sort_utils.rs:275-307 | exchanging two disjoint ranges of equal length keeps the multiset |
| Plateaus.SwapInPlace | src/utils/sort_utils.rs:275-307 | the in-place swap loop exchanges the two ranges |
| Plateaus.MovePlateauInPlace | src/utils/sort_utils.rs:275-307 | each branch of the move performs the swap the branch table picks |
| Plateaus.MovePlateauPermutation | src/utils/sort_utils.rs:275-307 | moving a plateau keeps the multiset |
| Plateaus.MovePlateauFills | src/utils/sort_utils.rs:275-307 | after moving a plateau of byte radix, [write_start, write_start + len) holds only byte radix |
| Plateaus.PlateauSwapFills | src/utils/sort_utils.rs:275-307 | every slot of the destination range ends up holding an item taken from the run |
| Plateaus.AppliedPermutation | src/utils/sort_utils.rs:268-308 | applying all plateaus keeps the multiset |
| Plateaus.AdvanceAllTotal | src/utils/sort_utils.rs:268-308 | each byte's prefix sum advances by the total length of its plateaus |
| Plateaus.ApplyPlateaus | src/utils/sort_utils.rs:257-311 | the bucket becomes the plateaus moved in order, a permutation; prefix_sums[b] is the original prefix sum plus the length of b's plateaus; the end offsets are those of the unmodified counts |
| MtLsbSort.MinorAt | src/sorts/mt_lsb_sort.rs:17-24 | entry b·tiles + t of the minor counts is tile t's count of byte b |
| MtLsbSort.MinorCounts | src/sorts/mt_lsb_sort.rs:17-24 | the push loop builds the tile counts bucket-major |
| MtLsbSort.Collate | src/sorts/mt_lsb_sort.rs:26-36 | tile t receives, for each byte b, the chunk at the running offset of (b, t) in bucket-major order |
| MtLsbSort.TileChunksOrdered | src/sorts/mt_lsb_sort.rs:26-36 | one tile's 256 chunks are disjoint, in byte order, inside the destination |
| MtLsbSort.ChunksApart | src/sorts/mt_lsb_sort.rs:26-36 | chunks of different (byte, tile) pairs do not overlap |
| MtLsbSort.TotalsAreCounts | src/sorts/mt_lsb_sort.rs:17-36 | the per-byte totals of the tile histograms are the histogram of the source, so the chunks exactly cover dst |
| MtLsbSort.InitialEnds | src/sorts/mt_lsb_sort.rs:49-55 | each chunk's back cursor starts at its last slot, at 0 for an empty chunk |
| MtLsbSort.PlaceRemainder | src/sorts/mt_lsb_sort.rs:59-71 | the len % 8 rightmost items are placed from the back of their chunks |
| MtLsbSort.PlaceFront | src/sorts/mt_lsb_sort.rs:73-106 | a front write fills the next slot of its chunk from the front and advances the offset |
| MtLsbSort.PlaceBack | src/sorts/mt_lsb_sort.rs:73-106 | a back write fills the next slot of its chunk from the back and moves the end down, saturating at 0 |
| MtLsbSort.ScatterRound | src/sorts/mt_lsb_sort.rs:73-106 | four front and four back writes keep every chunk holding its front and back items found so far |
| MtLsbSort.ScatterRounds | src/sorts/mt_lsb_sort.rs:73-106 | the rounds end when both cursors meet, with every item placed once |
| MtLsbSort.ScatterTile | src/sorts/mt_lsb_sort.rs:41-107 | each chunk of the tile holds exactly the tile's items of its byte, in source order; nothing outside the tile's chunks changes |
| MtLsbSort.ChunkDone | src/sorts/mt_lsb_sort.rs:73-106 | when the front and back parts meet, the chunk is the tile's bucket of its byte |
| MtLsbSort.TilesDoneGrouped | src/sorts/mt_lsb_sort.rs:8-108 | once all tiles are scattered, dst is the stable grouping of the source, tile t's items of a byte before tile t + 1's |
| MtLsbSort.MtLsbSort | src/sorts/mt_lsb_sort.rs:8-108 | dst becomes the stable grouping of src at the level |
| MtLsbSort.MtLsbSortAdapter | src/sorts/mt_lsb_sort.rs:110-150 | no change below 2 items; otherwise passes at start_level, .., end_level, alternating buffers, with the result copied back into the bucket |
| MtLsbSort.MtLsbSortAdapterSorts | src/sorts/mt_lsb_sort.rs:126-140 | the adapter's result is a permutation ordered by digit end_level, then .., then digit start_level |
| MtLsbSort.MtOopSortAdapter | src/sorts/mt_lsb_sort.rs:152-180 | no change for len <= 1; otherwise one pass at the level, copied back, then the director continues at level - 1, which requires level >= 1 |
| ComparisonSort.SortUnstable | src/lib.rs:297-300 | the comparison fallback returns a permutation in ascending key order |
| ComparisonSort.SortUnstableRange | src/lib.rs:513-516 | sorting a range replaces it by its sorted permutation and keeps the rest |
| RadixKeyImpl.U8KeyOrder | src/radix_key_impl.rs:3-10 | one level holding the value itself, so byte order is numeric order |
| RadixKeyImpl.UintKeyOrder | src/radix_key_impl.rs:12-46 | for values of the type, the byte order (most significant first) is numeric order |
| RadixKeyImpl.FromBytesOfBytes | src/radix_key_impl.rs:12-46 | the bytes recompose to the value modulo 256^LEVELS |
| RadixKeyImpl.BytesRoundTrip | src/radix_key_impl.rs:12-46 | for a value of the type, the bytes recompose to the value |
| RadixKeyImpl.UsizeKey | src/radix_key_impl.rs:48-76 | LEVELS is pointer width / 8, with the shift formula of the other unsigned types |
| RadixKeyImpl.ArrayKeyOrder | src/radix_key_impl.rs:78-85 | N levels, level l the element l, so byte order is array lexicographic order |
| Tuner.FindSkew | src/tuner.rs:33-39 | true iff some count reaches the threshold |
| Tuner.PickAlgorithmStandard | src/tuner.rs:26-78 | the standard table at depth total_levels - level - 1, with the skew test only from 5000 items; the level must be below the total once len > 128 |
| Tuner.PickAlgorithmInPlace | src/tuner.rs:80-128 | the in-place table with the same depth and skew test |
| Tuner.PickAlgorithm | src/tuner.rs:130-139 | the in-place table iff in_place |
| Tuner.StandardTableRegions | src/tuner.rs:26-78 | the length ranges where each algorithm is chosen; MtLsbSort only skewed at depth 0 for 350 001 ..= 4 000 000; never MtOopSort |
| Tuner.InPlaceTableRegions | src/tuner.rs:80-128 | the ranges of the in-place table; never MtLsbSort, RecombinatingSort, ScanningSort or MtOopSort |
| Tuner.InPlaceIgnoresDepth | src/tuner.rs:94-127 | both depth branches of the in-place table agree |
| Director.Director | src/director.rs:5-15 | scanning sort iff parallel and len >= its threshold, else ska sort iff len >= its threshold, else the LSB adapter over levels 0 ..= level; the callee receives the same bucket and flag |
| Director.SequentialNeverScans | src/director.rs:9-14 | sequentially the scanning sort is never chosen and its threshold plays no part |
| Director.LongerNotLsb | src/director.rs:9-14 | a length that is not left to the LSB adapter is not left to it at any greater length either |

## Left out

- `scanning_radix_sort_bucket` (src/lib.rs:341-466), the path `radix_sort_bucket_start` takes above 1 000 000 items. It is a concurrent sort over shared mutex state with a random start. `Lib.RadixSortBucketStart` takes the `radix_sort_bucket` path at every length, so above 1 000 000 items its panic condition and result are those of `radix_sort_bucket`, not of the scanning sort.
- `par_get_all_counts` and `par_get_counts` are channel and rayon reductions of the sequential counts. Their results are the same histograms, so the model always uses the sequential `get_all_counts` and `get_counts`.
- Threads (rayon, `par_bridge`, thread pools): chunks and tiles write disjoint ranges, so they are modelled as sequential loops over the chunks and the tiles.
- `sort_unstable` of the standard library is modelled by an insertion sort on the key order (`ComparisonSort.SortUnstable`). This assumes that `Ord` of the key type agrees with its byte order, as `RadixKeyImpl` shows for the crate's own key types. The insertion sort fixes one order among items with equal keys, which `sort_unstable` does not promise; of the equalities with `SortUnstable`, `LsbResult` and `MsbThenLsd`, only the multiset and the key order carry over to the library.
- `get_tmp_bucket`'s uninitialised buffer is a fresh array whose contents nothing relies on.
- The crate's `usize` width is modelled only in the tuner. Elsewhere counts and offsets are unbounded. The crate never asks for a level at or above `LEVELS`. There `RadixKeys.Digit` is whatever the key's `getLevel` returns: `RadixKeyImpl.U8Key` gives the value itself, as the `u8` impl does at every level; `RadixKeyImpl.UintDigit` gives 0, where the source's shift would underflow; `RadixKeyImpl.ArrayKey` gives 0 past the array's end.
- Tuner.PickAlgorithmStandard: requires `level < total_levels` once the bucket has more than 128 items, where the source's `usize` subtraction would underflow. The same holds for `Tuner.PickAlgorithmInPlace` and `Tuner.PickAlgorithm`.
- The ranges of the plateaus that `detect_plateaus` returns are not proved disjoint from one another. `apply_plateaus` is modelled for any list of plateaus that fit the buffer.
- `director`'s three callees and `TuningParameters` belong to code that is not part of this model. `TuningParameters` keeps only the two thresholds `director` reads, and `Director.Director` returns the call it makes as a value. `mt_oop_sort_adapter`'s closing `director` call is returned as a `Continuation`.
- The test sorting `[9, 8, …, 0]` into `[0, …, 9]` is covered only by the general theorem `Lib.RadixSortInner` (a `u32` key has four levels, so it does not panic), together with `RadixKeyImpl.UintKeyOrder`. The concrete instance is not stated.
- The `RadixSort` impls for `Vec<T>` and `[T]` each just call `radix_sort_inner`, so `Lib.RadixSortInner` stands for both.
- Panics are modelled as results: the `ok` flag of the LSB-sort methods and of `Lib.RadixSortBucketStart`, and `panicked` of `Lib.RadixSortInner`.
- Lib.RadixSortInner: when it panics inside `radix_sort_bucket`, it does not say what the slice then holds, since a panic leaves the slice partly sorted.
- Lib.RadixSortBucket: requires `LEVELS >= 1`, which `radix_sort_inner` establishes before the call.
- `radix_key.rs`, which holds the `RadixKey` trait, is not part of this model. The trait is the datatype `RadixKeys.RadixKey`.
- OutOfPlaceSort.PlaceEightAndCount: its contract states only that the two accumulators sum to the histogram. The even/odd split between them is not stated, since only their sum is returned.
- `work_profiles` printing, `src/test_utils.rs` and `benches/` contain no sorting logic.

## Findings

| source | as written | input that shows it | evidently intended | confidence | as-written member | corrected member |
|---|---|---|---|---|---|---|
| src/lib.rs:500, src/lib.rs:523 | `radix_sort_bucket` passes `T::LEVELS - 1` to `lsb_radix_sort_bucket`. For a one-level key (`u8`) that is level 0, and a chunk of 32 or more items then computes `level - 1` in `usize`, which underflows | a `u8` slice of 32 zero bytes (32 to 1 000 000 items, so that `radix_sort_bucket` runs) | a one-level key is already sorted by the level-0 scatter, so the per-chunk passes should be skipped when `LEVELS == 1` | not executed | Lib.RadixSortBucket, Lib.U8ChunkOf32, Lib.RadixSortInner | Lib.RadixSortBucketCorrected, Lib.RadixSortInnerCorrected |
