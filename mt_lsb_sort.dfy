/** The tiled LSD pass of `sorts/mt_lsb_sort.rs`. The source slice is cut into tiles of
    `tile_size` items; the destination is cut into 256 x tiles chunks, bucket-major, so
    that the chunk of tile t for digit b has as many slots as tile t has items of digit
    b. Each tile then scatters its items into its own 256 chunks from both ends. The
    tiles touch disjoint chunks; the source runs them on a thread pool, the model runs
    them one after another. */
module MtLsbSort {
  import opened RadixKeys
  import opened Grouping
  import opened Scatter
  import opened SortUtils
  import opened Lsd

  /** A chunk of the destination: `len` slots from `start`. */
  datatype Chunk = Chunk(start: nat, len: nat)

  /** Position p lies in one of the chunks. */
  ghost predicate InChunks(chunks: seq<Chunk>, p: nat)
  {
    exists b :: 0 <= b < |chunks| && chunks[b].start <= p < chunks[b].start + chunks[b].len
  }

  /** The chunks of one tile follow one another in digit order inside a slice of `n` slots. */
  ghost predicate ChunksOrdered(chunks: seq<Chunk>, n: nat)
  {
    && |chunks| == 256
    && (forall b :: 0 <= b < 255 ==> chunks[b].start + chunks[b].len <= chunks[b + 1].start)
    && chunks[255].start + chunks[255].len <= n
  }

  lemma {:induction false} ChunksDisjoint(chunks: seq<Chunk>, n: nat, b: nat, c: nat)
    requires ChunksOrdered(chunks, n) && b < c < 256
    ensures chunks[b].start + chunks[b].len <= chunks[c].start
    decreases c - b
  {
    if b + 1 < c {
      ChunksDisjoint(chunks, n, b + 1, c);
    }
  }

  lemma ChunksInside(chunks: seq<Chunk>, n: nat, b: nat)
    requires ChunksOrdered(chunks, n) && b < 256
    ensures chunks[b].start + chunks[b].len <= n
  {
    if b < 255 {
      ChunksDisjoint(chunks, n, b, 255);
    }
  }

  /** The state of the chunk of digit b while a tile `u` is scattered from both ends:
      the items `u[..lf]` have gone to the front of the chunk, the items `u[rb..]` to its
      back; `offset` is the next front slot and `end` the next back slot, which stays at
      0 once the back has reached the start of the chunk. */
  ghost predicate ChunkState<T>(rk: RadixKey<T>, u: seq<T>, level: nat, lf: nat, rb: nat,
                                c: Chunk, offset: nat, end: nat, d: seq<T>, b: nat)
    requires lf <= rb <= |u|
  {
    var front := Count(rk, u[..lf], level, b);
    var back := Count(rk, u[rb..], level, b);
    && c.len == Count(rk, u, level, b)
    && c.start + c.len <= |d|
    && front + back <= c.len
    && offset == front
    && end == (if back < c.len then c.len - 1 - back else 0)
    && d[c.start..c.start + front] == Bucket(rk, u[..lf], level, b)
    && d[c.start + c.len - back..c.start + c.len] == Bucket(rk, u[rb..], level, b)
  }

  /** The state of chunk b of a tile, picked out of the three per-digit arrays. */
  ghost predicate ChunkAt<T>(rk: RadixKey<T>, u: seq<T>, level: nat, lf: nat, rb: nat,
                             chunks: seq<Chunk>, offsets: seq<nat>, ends: seq<nat>, d: seq<T>, b: nat)
    requires lf <= rb <= |u| && |chunks| == 256 && |offsets| == 256 && |ends| == 256 && b < 256
  {
    ChunkState(rk, u, level, lf, rb, chunks[b], offsets[b], ends[b], d, b)
  }

  /** The state of a whole tile, and nothing written outside its chunks since `d0`. */
  ghost predicate TileState<T>(rk: RadixKey<T>, u: seq<T>, level: nat, lf: nat, rb: nat,
                               chunks: seq<Chunk>, offsets: seq<nat>, ends: seq<nat>, d: seq<T>, d0: seq<T>)
  {
    && lf <= rb <= |u|
    && |chunks| == 256 && |offsets| == 256 && |ends| == 256 && |d| == |d0|
    && ChunksOrdered(chunks, |d|)
    && (forall b :: 0 <= b < 256 ==> ChunkAt(rk, u, level, lf, rb, chunks, offsets, ends, d, b))
    && Untouched(chunks, d, d0)
  }

  /** Nothing outside the chunks differs between `d` and `d0`. */
  ghost predicate Untouched<T>(chunks: seq<Chunk>, d: seq<T>, d0: seq<T>)
  {
    |d| == |d0| && forall p :: 0 <= p < |d| && !InChunks(chunks, p) ==> d[p] == d0[p]
  }

  lemma UntouchedWrite<T>(chunks: seq<Chunk>, d: seq<T>, d0: seq<T>, x: nat, p: nat, v: T)
    requires Untouched(chunks, d, d0) && x < |chunks| && p < |d|
    requires chunks[x].start <= p < chunks[x].start + chunks[x].len
    ensures Untouched(chunks, d[p := v], d0)
  {
    assert InChunks(chunks, p);
  }

  /** A back cursor moving down, staying at 0 once there. */
  function StepDown(e: nat): (r: nat)
    ensures r <= e && (e > 0 ==> r + 1 == e)
  {
    if e > 0 then e - 1 else 0
  }

  /** The chunks before any item is placed: every front at 0, every back at the last slot. */
  lemma TileStateInit<T>(rk: RadixKey<T>, u: seq<T>, level: nat, chunks: seq<Chunk>, ends: seq<nat>, d: seq<T>)
    requires ChunksOrdered(chunks, |d|)
    requires forall b :: 0 <= b < 256 ==> chunks[b].len == Count(rk, u, level, b)
    requires |ends| == 256
    requires forall b :: 0 <= b < 256 ==> ends[b] == if chunks[b].len == 0 then 0 else chunks[b].len - 1
    ensures TileState(rk, u, level, 0, |u|, chunks, seq(256, b => 0), ends, d, d)
  {
    forall b | 0 <= b < 256
      ensures ChunkState(rk, u, level, 0, |u|, chunks[b], 0, ends[b], d, b)
    {
      ChunksInside(chunks, |d|, b);
      assert u[..0] == [] && u[|u|..] == [];
    }
  }

  /** The front write into the chunk of the item's own digit: the slot is before the
      items already written at the back, and the front part grows by the item. */
  lemma FrontOwn<T>(rk: RadixKey<T>, u: seq<T>, level: nat, lf: nat, rb: nat,
                    c: Chunk, offset: nat, end: nat, d: seq<T>, b: nat)
    requires lf < rb <= |u| && ChunkState(rk, u, level, lf, rb, c, offset, end, d, b)
    requires Digit(rk, u[lf], level) == b
    ensures c.start + offset < c.start + c.len
    ensures ChunkState(rk, u, level, lf + 1, rb, c, offset + 1, end, d[c.start + offset := u[lf]], b)
  {
    var front := Bucket(rk, u[..lf], level, b);
    var back := Bucket(rk, u[rb..], level, b);
    FrontOwnCounts(rk, u, level, lf, rb, c.len, b);
    FrontWrite(d, c.start, c.len, |front|, |back|, u[lf]);
    ChunkStateOf(rk, u, level, lf + 1, rb, c, offset + 1, end,
                 d[c.start + offset := u[lf]], b, front + [u[lf]], back);
  }

  /** The counting side of a front write into the item's own chunk. */
  lemma FrontOwnCounts<T>(rk: RadixKey<T>, u: seq<T>, level: nat, lf: nat, rb: nat, len: nat, b: nat)
    requires lf < rb <= |u| && len == Count(rk, u, level, b)
    requires Digit(rk, u[lf], level) == b
    ensures Count(rk, u[..lf], level, b) + Count(rk, u[rb..], level, b) + 1 <= len
    ensures Bucket(rk, u[..lf + 1], level, b) == Bucket(rk, u[..lf], level, b) + [u[lf]]
  {
    assert u[..lf + 1] == u[..lf] + [u[lf]];
    BucketSnoc(rk, u[..lf], u[lf], level, b);
    assert u[..rb][..lf + 1] == u[..lf + 1];
    CountPrefix(rk, u[..rb], lf + 1, level, b);
    CountPrefix(rk, u, rb, level, b);
  }

  /** Writing the slot just after a front part of `front` items, below a back part of
      `back` items, grows the front part by that item and leaves the back part alone. */
  lemma FrontWrite<T>(d: seq<T>, start: nat, len: nat, front: nat, back: nat, x: T)
    requires front + back + 1 <= len && start + len <= |d|
    ensures var p := start + front;
            && d[p := x][start + len - back..start + len] == d[start + len - back..start + len]
            && d[p := x][start..p + 1] == d[start..start + front] + [x]
  {
    var p := start + front;
    SliceUpdateExtend(d, p, x, start);
    SliceUpdateOutside(d, p, x, start + len - back, start + len);
  }

  /** The front write seen from the chunk of another digit, which it does not touch. */
  lemma FrontOther<T>(rk: RadixKey<T>, u: seq<T>, level: nat, lf: nat, rb: nat,
                      c: Chunk, offset: nat, end: nat, d: seq<T>, b: nat, p: nat)
    requires lf < rb <= |u| && ChunkState(rk, u, level, lf, rb, c, offset, end, d, b)
    requires Digit(rk, u[lf], level) != b
    requires p < |d| && (p < c.start || c.start + c.len <= p)
    ensures ChunkState(rk, u, level, lf + 1, rb, c, offset, end, d[p := u[lf]], b)
  {
    var front := Bucket(rk, u[..lf], level, b);
    var back := Bucket(rk, u[rb..], level, b);
    FrontSkip(rk, u, level, lf, b);
    SliceUpdateOutside(d, p, u[lf], c.start, c.start + |front|);
    SliceUpdateOutside(d, p, u[lf], c.start + c.len - |back|, c.start + c.len);
    ChunkStateOf(rk, u, level, lf + 1, rb, c, offset, end, d[p := u[lf]], b, front, back);
  }

  /** The back write into the chunk of the item's own digit: the slot is after the items
      already written at the front, and the back part grows by the item. */
  lemma BackOwn<T>(rk: RadixKey<T>, u: seq<T>, level: nat, lf: nat, rb: nat,
                   c: Chunk, offset: nat, end: nat, d: seq<T>, b: nat)
    requires lf < rb <= |u| && ChunkState(rk, u, level, lf, rb, c, offset, end, d, b)
    requires Digit(rk, u[rb - 1], level) == b
    ensures c.start + offset <= c.start + end < c.start + c.len
    ensures ChunkState(rk, u, level, lf, rb - 1, c, offset, StepDown(end),
                       d[c.start + end := u[rb - 1]], b)
  {
    var x := u[rb - 1];
    var front := Bucket(rk, u[..lf], level, b);
    var back := Bucket(rk, u[rb..], level, b);
    BackOwnCounts(rk, u, level, lf, rb, c.len, b);
    BackWrite(d, c.start, c.len, |front|, |back|, x);
    ChunkStateOf(rk, u, level, lf, rb - 1, c, offset, StepDown(end),
                 d[c.start + end := x], b, front, [x] + back);
  }

  /** The counting side of a back write into the item's own chunk: the chunk has room
      for it between the two parts, and the back part grows by it. */
  lemma BackOwnCounts<T>(rk: RadixKey<T>, u: seq<T>, level: nat, lf: nat, rb: nat, len: nat, b: nat)
    requires lf < rb <= |u| && len == Count(rk, u, level, b)
    requires Digit(rk, u[rb - 1], level) == b
    ensures Count(rk, u[..lf], level, b) + Count(rk, u[rb..], level, b) + 1 <= len
    ensures Bucket(rk, u[rb - 1..], level, b) == [u[rb - 1]] + Bucket(rk, u[rb..], level, b)
  {
    var tail := u[rb - 1..];
    var rest := u[lf..];
    assert tail == [u[rb - 1]] + u[rb..];
    BucketCons(rk, u[rb - 1], u[rb..], level, b);
    assert Count(rk, tail, level, b) == Count(rk, u[rb..], level, b) + 1;
    assert rest[rb - 1 - lf..] == tail;
    CountPrefix(rk, rest, rb - 1 - lf, level, b);
    assert Count(rk, tail, level, b) <= Count(rk, rest, level, b);
    CountPrefix(rk, u, lf, level, b);
  }

  /** A chunk's state from its parts: the items of digit b sent to the front and to the
      back, and the slots holding them. */
  lemma ChunkStateOf<T>(rk: RadixKey<T>, u: seq<T>, level: nat, lf: nat, rb: nat,
                        c: Chunk, offset: nat, end: nat, d: seq<T>, b: nat, front: seq<T>, back: seq<T>)
    requires lf <= rb <= |u|
    requires front == Bucket(rk, u[..lf], level, b) && back == Bucket(rk, u[rb..], level, b)
    requires c.len == Count(rk, u, level, b) && c.start + c.len <= |d| && |front| + |back| <= c.len
    requires offset == |front| && end == (if |back| < c.len then c.len - 1 - |back| else 0)
    requires d[c.start..c.start + |front|] == front
    requires d[c.start + c.len - |back|..c.start + c.len] == back
    ensures ChunkState(rk, u, level, lf, rb, c, offset, end, d, b)
  {
  }

  /** Writing the slot just below a back part of `back` items, above a front part of
      `front` items, grows the back part by that item and leaves the front part alone. */
  lemma BackWrite<T>(d: seq<T>, start: nat, len: nat, front: nat, back: nat, x: T)
    requires front + back + 1 <= len && start + len <= |d|
    ensures var p := start + len - 1 - back;
            && d[p := x][start..start + front] == d[start..start + front]
            && d[p := x][p..start + len] == [x] + d[start + len - back..start + len]
  {
    var p := start + len - 1 - back;
    SliceUpdateOutside(d, p, x, start, start + front);
    assert d[p := x][p..start + len] == [x] + d[start + len - back..start + len];
  }

  /** The back write seen from the chunk of another digit, which it does not touch. */
  lemma BackOther<T>(rk: RadixKey<T>, u: seq<T>, level: nat, lf: nat, rb: nat,
                     c: Chunk, offset: nat, end: nat, d: seq<T>, b: nat, p: nat)
    requires lf < rb <= |u| && ChunkState(rk, u, level, lf, rb, c, offset, end, d, b)
    requires Digit(rk, u[rb - 1], level) != b
    requires p < |d| && (p < c.start || c.start + c.len <= p)
    ensures ChunkState(rk, u, level, lf, rb - 1, c, offset, end, d[p := u[rb - 1]], b)
  {
    var front := Bucket(rk, u[..lf], level, b);
    var back := Bucket(rk, u[rb..], level, b);
    BackSkip(rk, u, level, rb, b);
    SliceUpdateOutside(d, p, u[rb - 1], c.start, c.start + |front|);
    SliceUpdateOutside(d, p, u[rb - 1], c.start + c.len - |back|, c.start + c.len);
    ChunkStateOf(rk, u, level, lf, rb - 1, c, offset, end, d[p := u[rb - 1]], b, front, back);
  }

  /** An item of another digit does not join the front part. */
  lemma FrontSkip<T>(rk: RadixKey<T>, u: seq<T>, level: nat, lf: nat, b: nat)
    requires lf < |u| && Digit(rk, u[lf], level) != b
    ensures Bucket(rk, u[..lf + 1], level, b) == Bucket(rk, u[..lf], level, b)
  {
    assert u[..lf + 1] == u[..lf] + [u[lf]];
    BucketSnoc(rk, u[..lf], u[lf], level, b);
  }

  /** An item of another digit does not join the back part. */
  lemma BackSkip<T>(rk: RadixKey<T>, u: seq<T>, level: nat, rb: nat, b: nat)
    requires 0 < rb <= |u| && Digit(rk, u[rb - 1], level) != b
    ensures Bucket(rk, u[rb - 1..], level, b) == Bucket(rk, u[rb..], level, b)
  {
    assert u[rb - 1..] == [u[rb - 1]] + u[rb..];
    BucketCons(rk, u[rb - 1], u[rb..], level, b);
  }

  /** A write inside chunk x leaves every other chunk alone. */
  lemma OutsideOther(chunks: seq<Chunk>, n: nat, x: nat, b: nat, p: nat)
    requires ChunksOrdered(chunks, n) && x < 256 && b < 256 && b != x
    requires chunks[x].start <= p < chunks[x].start + chunks[x].len
    ensures p < chunks[b].start || chunks[b].start + chunks[b].len <= p
  {
    if b < x {
      ChunksDisjoint(chunks, n, b, x);
    } else {
      ChunksDisjoint(chunks, n, x, b);
    }
  }

  /** Item `u[lf]` written at the front cursor of its digit. */
  lemma FrontStep<T>(rk: RadixKey<T>, u: seq<T>, level: nat, lf: nat, rb: nat,
                     chunks: seq<Chunk>, offsets: seq<nat>, ends: seq<nat>, d: seq<T>, d0: seq<T>)
    requires lf < rb && TileState(rk, u, level, lf, rb, chunks, offsets, ends, d, d0)
    ensures var x := Digit(rk, u[lf], level);
            && chunks[x].start + offsets[x] < |d|
            && TileState(rk, u, level, lf + 1, rb, chunks, offsets[x := offsets[x] + 1], ends,
                         d[chunks[x].start + offsets[x] := u[lf]], d0)
  {
    var x := Digit(rk, u[lf], level);
    var p := chunks[x].start + offsets[x];
    assert ChunkAt(rk, u, level, lf, rb, chunks, offsets, ends, d, x);
    FrontOwn(rk, u, level, lf, rb, chunks[x], offsets[x], ends[x], d, x);
    var d' := d[p := u[lf]];
    var offsets' := offsets[x := offsets[x] + 1];
    forall b | 0 <= b < 256
      ensures ChunkState(rk, u, level, lf + 1, rb, chunks[b], offsets'[b], ends[b], d', b)
    {
      if b != x {
        assert ChunkAt(rk, u, level, lf, rb, chunks, offsets, ends, d, b);
        OutsideOther(chunks, |d|, x, b, p);
        FrontOther(rk, u, level, lf, rb, chunks[b], offsets[b], ends[b], d, b, p);
      }
    }
    UntouchedWrite(chunks, d, d0, x, p, u[lf]);
  }

  /** Item `u[i]`, the last one not yet placed, written at the back cursor of its digit. */
  lemma BackStep<T>(rk: RadixKey<T>, u: seq<T>, level: nat, lf: nat, i: nat,
                    chunks: seq<Chunk>, offsets: seq<nat>, ends: seq<nat>, d: seq<T>, d0: seq<T>)
    requires lf <= i && TileState(rk, u, level, lf, i + 1, chunks, offsets, ends, d, d0)
    ensures var x := Digit(rk, u[i], level);
            && chunks[x].start + ends[x] < |d|
            && TileState(rk, u, level, lf, i, chunks, offsets, ends[x := StepDown(ends[x])],
                         d[chunks[x].start + ends[x] := u[i]], d0)
  {
    var x := Digit(rk, u[i], level);
    var p := chunks[x].start + ends[x];
    assert ChunkAt(rk, u, level, lf, i + 1, chunks, offsets, ends, d, x);
    BackOwn(rk, u, level, lf, i + 1, chunks[x], offsets[x], ends[x], d, x);
    var d' := d[p := u[i]];
    var ends' := ends[x := StepDown(ends[x])];
    forall b | 0 <= b < 256
      ensures ChunkAt(rk, u, level, lf, i, chunks, offsets, ends', d', b)
    {
      if b != x {
        BackStepOther(rk, u, level, lf, i, chunks, offsets, ends, d, x, b);
      }
    }
    UntouchedWrite(chunks, d, d0, x, p, u[i]);
  }

  /** The back write of `BackStep` seen from the chunk of another digit. */
  lemma BackStepOther<T>(rk: RadixKey<T>, u: seq<T>, level: nat, lf: nat, i: nat,
                         chunks: seq<Chunk>, offsets: seq<nat>, ends: seq<nat>, d: seq<T>, x: nat, b: nat)
    requires lf <= i < |u| && |chunks| == 256 && |offsets| == 256 && |ends| == 256
    requires ChunksOrdered(chunks, |d|) && x == Digit(rk, u[i], level) && b < 256 && b != x
    requires chunks[x].start + ends[x] < chunks[x].start + chunks[x].len <= |d|
    requires ChunkAt(rk, u, level, lf, i + 1, chunks, offsets, ends, d, b)
    ensures ChunkAt(rk, u, level, lf, i, chunks, offsets, ends[x := StepDown(ends[x])],
                    d[chunks[x].start + ends[x] := u[i]], b)
  {
    var p := chunks[x].start + ends[x];
    OutsideOther(chunks, |d|, x, b, p);
    BackOther(rk, u, level, lf, i + 1, chunks[b], offsets[b], ends[b], d, b, p);
  }

  /** Front and back have met: every chunk holds its digit's items of the tile, in order. */
  lemma TileStateDone<T>(rk: RadixKey<T>, u: seq<T>, level: nat, k: nat,
                         chunks: seq<Chunk>, offsets: seq<nat>, ends: seq<nat>, d: seq<T>, d0: seq<T>)
    requires TileState(rk, u, level, k, k, chunks, offsets, ends, d, d0)
    ensures forall b :: 0 <= b < 256 ==>
              chunks[b].start + chunks[b].len <= |d| &&
              d[chunks[b].start..chunks[b].start + chunks[b].len] == Bucket(rk, u, level, b)
  {
    forall b | 0 <= b < 256
      ensures chunks[b].start + chunks[b].len <= |d| &&
              d[chunks[b].start..chunks[b].start + chunks[b].len] == Bucket(rk, u, level, b)
    {
      assert ChunkAt(rk, u, level, k, k, chunks, offsets, ends, d, b);
      ChunkDone(rk, u, level, k, chunks[b], offsets[b], ends[b], d, b);
    }
  }

  /** One chunk of `TileStateDone`: its front and back parts together are its bucket. */
  lemma ChunkDone<T>(rk: RadixKey<T>, u: seq<T>, level: nat, k: nat,
                     c: Chunk, offset: nat, end: nat, d: seq<T>, b: nat)
    requires k <= |u| && ChunkState(rk, u, level, k, k, c, offset, end, d, b)
    ensures c.start + c.len <= |d| && d[c.start..c.start + c.len] == Bucket(rk, u, level, b)
  {
    BucketSplit(rk, u, k, level, b);
    PartsMeet(d, c.start, c.len, Bucket(rk, u[..k], level, b), Bucket(rk, u[k..], level, b));
  }

  lemma BucketSplit<T>(rk: RadixKey<T>, u: seq<T>, k: nat, level: nat, b: nat)
    requires k <= |u|
    ensures Bucket(rk, u, level, b) == Bucket(rk, u[..k], level, b) + Bucket(rk, u[k..], level, b)
  {
    assert u[..k] + u[k..] == u;
    BucketAppend(rk, u[..k], u[k..], level, b);
  }

  /** A front part and a back part that together fill a region make up the region. */
  lemma PartsMeet<U>(d: seq<U>, start: nat, len: nat, front: seq<U>, back: seq<U>)
    requires |front| + |back| == len && start + len <= |d|
    requires d[start..start + |front|] == front && d[start + len - |back|..start + len] == back
    ensures d[start..start + len] == front + back
  {
    assert d[start..start + len] == d[start..start + |front|] + d[start + |front|..start + len];
  }

  /** Writes `u[i]` at the front cursor of its digit and advances that cursor. */
  method PlaceFront<T>(rk: RadixKey<T>, u: seq<T>, level: nat, i: nat, ghost rb: nat, chunks: seq<Chunk>,
                       offsets: seq<nat>, ends: seq<nat>, dst: array<T>, ghost d0: seq<T>)
    returns (next: seq<nat>)
    requires i < rb && TileState(rk, u, level, i, rb, chunks, offsets, ends, dst[..], d0)
    modifies dst
    ensures var x := Digit(rk, u[i], level);
            next == offsets[x := offsets[x] + 1] &&
            chunks[x].start + offsets[x] < dst.Length &&
            dst[..] == old(dst[..])[chunks[x].start + offsets[x] := u[i]]
    ensures TileState(rk, u, level, i + 1, rb, chunks, next, ends, dst[..], d0)
  {
    FrontStep(rk, u, level, i, rb, chunks, offsets, ends, dst[..], d0);
    var x := Digit(rk, u[i], level);
    dst[chunks[x].start + offsets[x]] := u[i];
    next := offsets[x := offsets[x] + 1];
  }

  /** Writes `u[i]` at the back cursor of its digit and moves that cursor back,
      saturating at 0. */
  method PlaceBack<T>(rk: RadixKey<T>, u: seq<T>, level: nat, ghost lf: nat, i: nat, chunks: seq<Chunk>,
                      offsets: seq<nat>, ends: seq<nat>, dst: array<T>, ghost d0: seq<T>)
    returns (next: seq<nat>)
    requires lf <= i && TileState(rk, u, level, lf, i + 1, chunks, offsets, ends, dst[..], d0)
    modifies dst
    ensures var x := Digit(rk, u[i], level);
            next == ends[x := StepDown(ends[x])] &&
            chunks[x].start + ends[x] < dst.Length &&
            dst[..] == old(dst[..])[chunks[x].start + ends[x] := u[i]]
    ensures TileState(rk, u, level, lf, i, chunks, offsets, next, dst[..], d0)
  {
    ghost var d := dst[..];
    BackStep(rk, u, level, lf, i, chunks, offsets, ends, d, d0);
    var x := Digit(rk, u[i], level);
    var p := chunks[x].start + ends[x];
    dst[p] := u[i];
    next := ends[x := StepDown(ends[x])];
    assert dst[..] == d[p := u[i]];
  }

  /** One round of the main loop: four items from the front, four from the back,
      alternating. */
  method ScatterRound<T>(rk: RadixKey<T>, u: seq<T>, level: nat, left: nat, right: nat, chunks: seq<Chunk>,
                         offsets: seq<nat>, ends: seq<nat>, dst: array<T>, ghost d0: seq<T>)
    returns (offsets': seq<nat>, ends': seq<nat>)
    requires left + 8 <= right + 1
    requires TileState(rk, u, level, left, right + 1, chunks, offsets, ends, dst[..], d0)
    modifies dst
    ensures TileState(rk, u, level, left + 4, right - 3, chunks, offsets', ends', dst[..], d0)
  {
    offsets', ends' := PlacePair(rk, u, level, left, right, chunks, offsets, ends, dst, d0);
    offsets', ends' := PlacePair(rk, u, level, left + 1, right - 1, chunks, offsets', ends', dst, d0);
    offsets', ends' := PlacePair(rk, u, level, left + 2, right - 2, chunks, offsets', ends', dst, d0);
    offsets', ends' := PlacePair(rk, u, level, left + 3, right - 3, chunks, offsets', ends', dst, d0);
  }

  /** `u[left]` to the front of its chunk, then `u[right]` to the back of its chunk. */
  method PlacePair<T>(rk: RadixKey<T>, u: seq<T>, level: nat, left: nat, right: nat, chunks: seq<Chunk>,
                      offsets: seq<nat>, ends: seq<nat>, dst: array<T>, ghost d0: seq<T>)
    returns (offsets': seq<nat>, ends': seq<nat>)
    requires left < right
    requires TileState(rk, u, level, left, right + 1, chunks, offsets, ends, dst[..], d0)
    modifies dst
    ensures TileState(rk, u, level, left + 1, right, chunks, offsets', ends', dst[..], d0)
  {
    offsets' := PlaceFront(rk, u, level, left, right + 1, chunks, offsets, ends, dst, d0);
    ends' := PlaceBack(rk, u, level, left + 1, right, chunks, offsets', ends, dst, d0);
  }

  /** The initial back cursors: the last slot of every non-empty chunk, 0 otherwise. */
  method InitialEnds(chunks: seq<Chunk>) returns (ends: seq<nat>)
    requires |chunks| == 256
    ensures |ends| == 256
    ensures forall b :: 0 <= b < 256 ==> ends[b] == if chunks[b].len == 0 then 0 else chunks[b].len - 1
  {
    ends := seq(256, b => 0);
    for i := 0 to 256
      invariant |ends| == 256
      invariant forall b :: 0 <= b < i ==> ends[b] == if chunks[b].len == 0 then 0 else chunks[b].len - 1
      invariant forall b :: i <= b < 256 ==> ends[b] == 0
    {
      if chunks[i].len == 0 {
        continue;
      }
      ends := ends[i := chunks[i].len - 1];
    }
  }

  /** The `len % 8` items at the right end of a tile, placed back to front before the
      main loop; the right cursor saturates at 0. */
  method PlaceRemainder<T>(rk: RadixKey<T>, u: seq<T>, level: nat, chunks: seq<Chunk>,
                           offsets: seq<nat>, ends: seq<nat>, dst: array<T>, ghost d0: seq<T>)
    returns (ends': seq<nat>, right: nat)
    requires |u| > 0 && TileState(rk, u, level, 0, |u|, chunks, offsets, ends, dst[..], d0)
    modifies dst
    ensures TileState(rk, u, level, 0, |u| - |u| % 8, chunks, offsets, ends', dst[..], d0)
    ensures right == StepDown(|u| - |u| % 8)
  {
    ends' := ends;
    right := |u| - 1;
    ghost var rb := |u|;
    for r := 0 to |u| % 8
      invariant rb == |u| - r && right == StepDown(rb)
      invariant TileState(rk, u, level, 0, rb, chunks, offsets, ends', dst[..], d0)
    {
      ends' := PlaceBack(rk, u, level, 0, right, chunks, offsets, ends', dst, d0);
      rb := rb - 1;
      right := StepDown(right);
    }
  }

  /** The body of the per-tile closure of `mt_lsb_sort`: `len % 8` items from the right
      end first, then rounds of four from each end until the two cursors meet. Every
      chunk ends up holding its digit's items of the tile in their original order, and
      nothing outside the chunks is written. */
  method ScatterTile<T>(rk: RadixKey<T>, u: seq<T>, level: nat, chunks: seq<Chunk>, dst: array<T>)
    requires ChunksOrdered(chunks, dst.Length)
    requires forall b :: 0 <= b < 256 ==> chunks[b].len == Count(rk, u, level, b)
    modifies dst
    ensures forall b :: 0 <= b < 256 ==>
              chunks[b].start + chunks[b].len <= dst.Length &&
              dst[chunks[b].start..chunks[b].start + chunks[b].len] == Bucket(rk, u, level, b)
    ensures Untouched(chunks, dst[..], old(dst[..]))
  {
    ghost var d0 := dst[..];
    if |u| == 0 {
      forall b | 0 <= b < 256
        ensures chunks[b].start + chunks[b].len <= dst.Length
      {
        ChunksInside(chunks, dst.Length, b);
      }
      return;
    }
    var offsets: seq<nat> := seq(256, b => 0);
    var ends := InitialEnds(chunks);
    TileStateInit(rk, u, level, chunks, ends, dst[..]);

    var left := 0;
    var pre := |u| % 8;
    var right;
    ends, right := PlaceRemainder(rk, u, level, chunks, offsets, ends, dst, d0);
    if pre == |u| {
      TileStateDone(rk, u, level, 0, chunks, offsets, ends, dst[..], d0);
      return;
    }

    left, offsets, ends := ScatterRounds(rk, u, level, left, right, chunks, offsets, ends, dst, d0);
    TileStateDone(rk, u, level, left, chunks, offsets, ends, dst[..], d0);
  }

  /** The main loop of the per-tile closure: rounds of four from each end until the
      front and back cursors meet at `k`. */
  method ScatterRounds<T>(rk: RadixKey<T>, u: seq<T>, level: nat, left: nat, right: nat, chunks: seq<Chunk>,
                          offsets: seq<nat>, ends: seq<nat>, dst: array<T>, ghost d0: seq<T>)
    returns (k: nat, offsets': seq<nat>, ends': seq<nat>)
    requires left <= right + 1 && (right + 1 - left) % 8 == 0
    requires TileState(rk, u, level, left, right + 1, chunks, offsets, ends, dst[..], d0)
    modifies dst
    ensures TileState(rk, u, level, k, k, chunks, offsets', ends', dst[..], d0)
  {
    k, offsets', ends' := left, offsets, ends;
    var r := right;
    while k < r
      invariant k <= r + 1 && (r + 1 - k) % 8 == 0
      invariant TileState(rk, u, level, k, r + 1, chunks, offsets', ends', dst[..], d0)
      decreases r + 1 - k
    {
      offsets', ends' := ScatterRound(rk, u, level, k, r, chunks, offsets', ends', dst, d0);
      k := k + 4;
      r := r - 4;
    }
  }

  // ---------------------------------------------------------------- the chunk layout

  /** Every tile histogram has 256 entries. */
  ghost predicate Histograms(tc: seq<seq<nat>>)
  {
    forall t :: 0 <= t < |tc| ==> |tc[t]| == 256
  }

  /** The counts of digit b in the tiles, in tile order. */
  function Column(tc: seq<seq<nat>>, b: nat): (r: seq<nat>)
    requires Histograms(tc) && b < 256
    ensures |r| == |tc| && forall t :: 0 <= t < |tc| ==> r[t] == tc[t][b]
  {
    seq(|tc|, t requires 0 <= t < |tc| => tc[t][b])
  }

  /** The tile histograms digit by digit: row b is `Column(tc, b)`. */
  function Transposed(tc: seq<seq<nat>>): (r: seq<seq<nat>>)
    requires Histograms(tc)
    ensures |r| == 256 && forall b :: 0 <= b < 256 ==> r[b] == Column(tc, b)
  {
    seq(256, b requires 0 <= b < 256 => Column(tc, b))
  }

  /** The number of items of digit b over all tiles. */
  function Totals(tc: seq<seq<nat>>): (r: seq<nat>)
    requires Histograms(tc)
    ensures |r| == 256 && forall b :: 0 <= b < 256 ==> r[b] == Sum(Column(tc, b))
  {
    seq(256, b requires 0 <= b < 256 => Sum(Column(tc, b)))
  }

  /** Where the chunk of tile t for digit b starts: after every item of a smaller digit
      and after the items of digit b of the earlier tiles. */
  ghost function ChunkStart(tc: seq<seq<nat>>, b: nat, t: nat): nat
    requires Histograms(tc) && b < 256 && t <= |tc|
  {
    Sum(Totals(tc)[..b]) + Sum(Column(tc, b)[..t])
  }

  ghost function ChunkOf(tc: seq<seq<nat>>, b: nat, t: nat): Chunk
    requires Histograms(tc) && b < 256 && t < |tc|
  {
    Chunk(ChunkStart(tc, b, t), tc[t][b])
  }

  lemma ChunkStartStep(tc: seq<seq<nat>>, b: nat, t: nat)
    requires Histograms(tc) && b < 256 && t < |tc|
    ensures ChunkStart(tc, b, t + 1) == ChunkStart(tc, b, t) + tc[t][b]
  {
    SumPrefixStep(Column(tc, b), t);
  }

  /** The end of row b is the start of row b + 1. */
  lemma ChunkStartRow(tc: seq<seq<nat>>, b: nat)
    requires Histograms(tc) && b < 256
    ensures ChunkStart(tc, b, |tc|) == Sum(Totals(tc)[..b + 1])
  {
    assert Column(tc, b)[..|tc|] == Column(tc, b);
    SumPrefixStep(Totals(tc), b);
  }

  lemma SumPrefixMono(c: seq<nat>, i: nat, j: nat)
    requires i <= j <= |c|
    ensures Sum(c[..i]) <= Sum(c[..j])
  {
    if i < j {
      PrefixSumsMonotone(c, i, j);
    }
  }

  /** Chunk starts grow in (digit, tile) order. */
  lemma ChunkStartMono(tc: seq<seq<nat>>, b: nat, t: nat, b2: nat, t2: nat)
    requires Histograms(tc) && b <= b2 < 256 && t <= |tc| && t2 <= |tc|
    requires b == b2 ==> t <= t2
    ensures ChunkStart(tc, b, t) <= ChunkStart(tc, b2, t2)
  {
    if b == b2 {
      SumPrefixMono(Column(tc, b), t, t2);
    } else {
      SumPrefixMono(Column(tc, b), t, |tc|);
      ChunkStartRow(tc, b);
      SumPrefixMono(Totals(tc), b + 1, b2);
    }
  }

  /** The chunk of (b, t) ends before the chunk of any later (digit, tile) pair starts. */
  lemma ChunkBefore(tc: seq<seq<nat>>, b: nat, t: nat, b2: nat, t2: nat)
    requires Histograms(tc) && b <= b2 < 256 && t < |tc| && t2 < |tc|
    requires b == b2 ==> t < t2
    ensures ChunkStart(tc, b, t) + tc[t][b] <= ChunkStart(tc, b2, t2)
  {
    ChunkStartStep(tc, b, t);
    ChunkStartMono(tc, b, t + 1, b2, t2);
  }

  /** Every chunk lies inside the destination. */
  lemma ChunkInside(tc: seq<seq<nat>>, b: nat, t: nat)
    requires Histograms(tc) && b < 256 && t < |tc|
    ensures ChunkStart(tc, b, t) + tc[t][b] <= Sum(Totals(tc))
  {
    ChunkStartStep(tc, b, t);
    ChunkStartMono(tc, b, t + 1, b, |tc|);
    ChunkStartRow(tc, b);
    SumPrefixMono(Totals(tc), b + 1, 256);
    assert Totals(tc)[..256] == Totals(tc);
  }

  /** The chunks of two different tiles do not overlap. */
  lemma ChunksApart(tc: seq<seq<nat>>, b: nat, t: nat, b2: nat, t2: nat)
    requires Histograms(tc) && b < 256 && b2 < 256 && t < |tc| && t2 < |tc| && t != t2
    ensures || ChunkStart(tc, b, t) + tc[t][b] <= ChunkStart(tc, b2, t2)
            || ChunkStart(tc, b2, t2) + tc[t2][b2] <= ChunkStart(tc, b, t)
  {
    if b < b2 || (b == b2 && t < t2) {
      ChunkBefore(tc, b, t, b2, t2);
    } else {
      ChunkBefore(tc, b2, t2, b, t);
    }
  }

  /** The chunks of one tile, in digit order, are ordered inside the destination. */
  lemma TileChunksOrdered(tc: seq<seq<nat>>, t: nat, chunks: seq<Chunk>)
    requires Histograms(tc) && t < |tc|
    requires |chunks| == 256 && forall b :: 0 <= b < 256 ==> chunks[b] == ChunkOf(tc, b, t)
    ensures ChunksOrdered(chunks, Sum(Totals(tc)))
  {
    forall b | 0 <= b < 255
      ensures chunks[b].start + chunks[b].len <= chunks[b + 1].start
    {
      ChunkBefore(tc, b, t, b + 1, t);
    }
    ChunkInside(tc, 255, t);
  }

  /** ColumnSum, the fold `AggregateTileCounts` is specified by, is the sum of the column. */
  lemma {:induction false} ColumnSumIsSum(tc: seq<seq<nat>>, b: nat)
    requires Histograms(tc) && b < 256
    ensures ColumnSum(tc, b) == Sum(Column(tc, b))
    decreases |tc|
  {
    if |tc| > 0 {
      var n := |tc| - 1;
      ColumnSumIsSum(tc[..n], b);
      assert Column(tc, b)[..n] == Column(tc[..n], b);
    }
  }

  /** When `tc` holds the tile histograms of `src`, the totals are the histogram of `src`. */
  lemma TotalsAreCounts<T>(rk: RadixKey<T>, src: seq<T>, tileSize: nat, level: nat, tc: seq<seq<nat>>)
    requires tileSize > 0 && |tc| == |Tiles(src, tileSize)|
    requires forall t :: 0 <= t < |tc| ==> tc[t] == Counts(rk, Tiles(src, tileSize)[t], level)
    ensures Histograms(tc) && Totals(tc) == Counts(rk, src, level)
  {
    AggregateOfTiles(rk, src, tileSize, level, tc);
    forall b | 0 <= b < 256
      ensures Totals(tc)[b] == Counts(rk, src, level)[b]
    {
      ColumnSumIsSum(tc, b);
    }
  }

  // ---------------------------------------------------------------- minor counts and collation

  lemma TransposedPrefixStep(tc: seq<seq<nat>>, b: nat)
    requires Histograms(tc) && b < 256
    ensures Flatten(Transposed(tc)[..b + 1]) == Flatten(Transposed(tc)[..b]) + Column(tc, b)
  {
    assert Transposed(tc)[..b + 1][..b] == Transposed(tc)[..b];
  }

  /** The counts of the first b digits take up b rows of `|tc|` entries each. */
  lemma {:induction false} MinorPrefixLength(tc: seq<seq<nat>>, b: nat)
    requires Histograms(tc) && b <= 256
    ensures |Flatten(Transposed(tc)[..b])| == b * |tc|
  {
    if b > 0 {
      MinorPrefixLength(tc, b - 1);
      TransposedPrefixStep(tc, b - 1);
      assert (b - 1) * |tc| + |tc| == b * |tc|;
    }
  }

  /** The minor counts are digit-major: entry b * tiles + t is the count of digit b in
      tile t, so there are 256 * tiles entries. */
  lemma MinorAt(tc: seq<seq<nat>>, b: nat, t: nat)
    requires Histograms(tc) && b < 256 && t < |tc|
    ensures |Flatten(Transposed(tc))| == 256 * |tc|
    ensures b * |tc| + t < 256 * |tc|
    ensures Flatten(Transposed(tc))[b * |tc| + t] == tc[t][b]
  {
    var m := Transposed(tc);
    MinorPrefixLength(tc, b);
    MinorPrefixLength(tc, 256);
    assert m[..256] == m;
    TransposedPrefixStep(tc, b);
    assert m == m[..b + 1] + m[b + 1..];
    FlattenAppend(m[..b + 1], m[b + 1..]);
  }

  /** The loop that lays the tile histograms out digit-major. */
  method MinorCounts(tc: seq<seq<nat>>) returns (minor: seq<nat>)
    requires Histograms(tc)
    ensures minor == Flatten(Transposed(tc))
  {
    minor := [];
    for b := 0 to 256
      invariant minor == Flatten(Transposed(tc)[..b])
    {
      for c := 0 to |tc|
        invariant minor == Flatten(Transposed(tc)[..b]) + Column(tc, b)[..c]
      {
        assert Column(tc, b)[..c + 1] == Column(tc, b)[..c] + [tc[c][b]];
        minor := minor + [tc[c][b]];
      }
      assert Column(tc, b)[..|tc|] == Column(tc, b);
      TransposedPrefixStep(tc, b);
    }
    assert Transposed(tc)[..256] == Transposed(tc);
  }

  /** Cutting the destination into consecutive chunks of the minor-count lengths and
      handing chunk b * tiles + t to tile t as its chunk for digit b. */
  method Collate(tc: seq<seq<nat>>, minor: seq<nat>) returns (collated: seq<seq<Chunk>>)
    requires Histograms(tc) && minor == Flatten(Transposed(tc))
    ensures |collated| == |tc|
    ensures forall t :: 0 <= t < |tc| ==> |collated[t]| == 256
    ensures forall t, b :: 0 <= t < |tc| && 0 <= b < 256 ==> collated[t][b] == ChunkOf(tc, b, t)
  {
    collated := seq(|tc|, t => []);
    var k := 0;
    var pos := 0;
    for b := 0 to 256
      invariant CollatedUpTo(tc, collated, b) && k == b * |tc| && pos == Sum(Totals(tc)[..b])
    {
      collated, k, pos := CollateRow(tc, minor, b, collated, k, pos);
      ChunkStartRow(tc, b);
      NextRow(b, |tc|);
    }
    CollatedAll(tc, collated);
  }

  lemma NextRow(b: nat, n: nat)
    ensures b * n + n == (b + 1) * n
  {
  }

  lemma CollatedAll(tc: seq<seq<nat>>, collated: seq<seq<Chunk>>)
    requires Histograms(tc) && CollatedUpTo(tc, collated, 256)
    ensures |collated| == |tc|
    ensures forall t :: 0 <= t < |tc| ==> |collated[t]| == 256
    ensures forall t, b :: 0 <= t < |tc| && 0 <= b < 256 ==> collated[t][b] == ChunkOf(tc, b, t)
  {
  }

  /** The chunks of digits 0..b-1 of every tile are in place. */
  ghost predicate CollatedUpTo(tc: seq<seq<nat>>, collated: seq<seq<Chunk>>, b: nat)
    requires Histograms(tc) && b <= 256
  {
    && |collated| == |tc|
    && (forall t :: 0 <= t < |tc| ==> |collated[t]| == b)
    && forall t, c :: 0 <= t < |tc| && 0 <= c < b ==> collated[t][c] == ChunkOf(tc, c, t)
  }

  /** One pass of the outer collation loop: the chunks of digit b, one per tile. */
  method CollateRow(tc: seq<seq<nat>>, minor: seq<nat>, b: nat, collated: seq<seq<Chunk>>, k: nat, pos: nat)
    returns (collated': seq<seq<Chunk>>, k': nat, pos': nat)
    requires Histograms(tc) && minor == Flatten(Transposed(tc)) && b < 256
    requires CollatedUpTo(tc, collated, b) && k == b * |tc| && pos == ChunkStart(tc, b, 0)
    ensures CollatedUpTo(tc, collated', b + 1)
    ensures k' == b * |tc| + |tc| && pos' == ChunkStart(tc, b, |tc|)
  {
    collated', k', pos' := collated, k, pos;
    for t := 0 to |tc|
      invariant |collated'| == |tc| && k' == b * |tc| + t && pos' == ChunkStart(tc, b, t)
      invariant forall u :: 0 <= u < t ==> |collated'[u]| == b + 1 && collated'[u][b] == ChunkOf(tc, b, u)
      invariant forall u :: t <= u < |tc| ==> collated'[u] == collated[u]
      invariant forall u, c :: 0 <= u < t && 0 <= c < b ==> collated'[u][c] == ChunkOf(tc, c, u)
    {
      MinorAt(tc, b, t);
      ChunkStartStep(tc, b, t);
      collated' := collated'[t := collated'[t] + [Chunk(pos', minor[k'])]];
      pos' := pos' + minor[k'];
      k' := k' + 1;
    }
  }

  // ---------------------------------------------------------------- the pass

  /** The chunk of tile t for digit b holds the items of digit b of tile t. */
  ghost predicate ChunkFilled<T>(rk: RadixKey<T>, tiles: seq<seq<T>>, level: nat, tc: seq<seq<nat>>,
                                 b: nat, t: nat, d: seq<T>)
    requires Histograms(tc) && b < 256 && t < |tc| && t < |tiles|
  {
    && ChunkStart(tc, b, t) + tc[t][b] <= |d|
    && d[ChunkStart(tc, b, t)..ChunkStart(tc, b, t) + tc[t][b]] == Bucket(rk, tiles[t], level, b)
  }

  /** Tiles 0..t-1 have been scattered. */
  ghost predicate TilesDone<T>(rk: RadixKey<T>, tiles: seq<seq<T>>, level: nat, tc: seq<seq<nat>>,
                               t: nat, d: seq<T>)
  {
    && Histograms(tc) && t <= |tc| == |tiles|
    && forall u, b :: 0 <= u < t && 0 <= b < 256 ==> ChunkFilled(rk, tiles, level, tc, b, u, d)
  }

  /** Scattering tile t fills its chunks and leaves the chunks of the other tiles alone. */
  lemma TilesDoneStep<T>(rk: RadixKey<T>, tiles: seq<seq<T>>, level: nat, tc: seq<seq<nat>>,
                         t: nat, chunks: seq<Chunk>, d: seq<T>, d': seq<T>)
    requires TilesDone(rk, tiles, level, tc, t, d) && t < |tc|
    requires |chunks| == 256 && forall b :: 0 <= b < 256 ==> chunks[b] == ChunkOf(tc, b, t)
    requires Untouched(chunks, d', d)
    requires forall b :: 0 <= b < 256 ==>
               chunks[b].start + chunks[b].len <= |d'| &&
               d'[chunks[b].start..chunks[b].start + chunks[b].len] == Bucket(rk, tiles[t], level, b)
    ensures TilesDone(rk, tiles, level, tc, t + 1, d')
  {
    forall u, b | 0 <= u < t + 1 && 0 <= b < 256
      ensures ChunkFilled(rk, tiles, level, tc, b, u, d')
    {
      if u < t {
        var lo := ChunkStart(tc, b, u);
        var hi := lo + tc[u][b];
        assert ChunkFilled(rk, tiles, level, tc, b, u, d);
        forall p | lo <= p < hi
          ensures d'[p] == d[p]
        {
          forall c | 0 <= c < 256
            ensures !(chunks[c].start <= p < chunks[c].start + chunks[c].len)
          {
            ChunksApart(tc, b, u, c, t);
          }
          assert !InChunks(chunks, p);
        }
        assert d'[lo..hi] == d[lo..hi];
      }
    }
  }

  /** All tiles scattered: row b of the destination is the bucket of digit b of the
      whole slice, so the destination is the stable grouping of the slice. */
  lemma TilesDoneGrouped<T>(rk: RadixKey<T>, src: seq<T>, tiles: seq<seq<T>>, level: nat,
                            tc: seq<seq<nat>>, d: seq<T>)
    requires Flatten(tiles) == src && |d| == |src|
    requires TilesDone(rk, tiles, level, tc, |tiles|, d)
    requires Totals(tc) == Counts(rk, src, level)
    ensures d == Grouped(rk, src, level)
  {
    SumCounts(rk, src, level);
    forall b | 0 <= b < 256
      ensures var counts := Counts(rk, src, level);
              && Sum(counts[..b]) + counts[b] <= |d|
              && d[Sum(counts[..b])..Sum(counts[..b]) + counts[b]] == Buckets(rk, src, level)[b]
    {
      var parts := seq(|tiles|, k requires 0 <= k < |tiles| => Bucket(rk, tiles[k], level, b));
      RowLaidOut(rk, tiles, level, tc, d, b, parts);
      RowGrouped(rk, src, tiles, level, tc, d, b, parts);
    }
    GroupedAt(rk, src, level, d);
  }

  lemma SliceOfSlice<U>(d: seq<U>, lo: nat, hi: nat, a: nat, e: nat)
    requires a <= e && lo + e <= hi <= |d|
    ensures d[lo..hi][a..e] == d[lo + a..lo + e]
  {
    forall i | 0 <= i < e - a
      ensures d[lo..hi][a..e][i] == d[lo + a..lo + e][i]
    {
    }
  }

  /** The chunk of tile t sits at offset `Sum(Column(tc, b)[..t])` inside row b. */
  lemma RowPart<T>(rk: RadixKey<T>, tiles: seq<seq<T>>, level: nat, tc: seq<seq<nat>>, d: seq<T>, b: nat, t: nat)
    requires Histograms(tc) && |tiles| == |tc| && b < 256 && t < |tiles|
    requires ChunkFilled(rk, tiles, level, tc, b, t, d) && |d| == Sum(Totals(tc))
    ensures var lo := Sum(Totals(tc)[..b]);
            var col := Column(tc, b);
            && lo + Totals(tc)[b] <= |d|
            && Sum(col[..t]) + col[t] <= Totals(tc)[b]
            && d[lo..lo + Totals(tc)[b]][Sum(col[..t])..Sum(col[..t]) + col[t]] == Bucket(rk, tiles[t], level, b)
  {
    var lo := Sum(Totals(tc)[..b]);
    var col := Column(tc, b);
    SumPrefixBound(Totals(tc), b);
    assert Totals(tc)[..256] == Totals(tc);
    ChunkStartStep(tc, b, t);
    ChunkStartMono(tc, b, t + 1, b, |tc|);
    ChunkStartRow(tc, b);
    SumPrefixStep(Totals(tc), b);
    SliceOfSlice(d, lo, lo + Totals(tc)[b], Sum(col[..t]), Sum(col[..t]) + col[t]);
  }

  /** Row b of the destination, the chunks of digit b of every tile one after another,
      is the bucket of digit b of the whole slice. */
  lemma RowGrouped<T>(rk: RadixKey<T>, src: seq<T>, tiles: seq<seq<T>>, level: nat,
                      tc: seq<seq<nat>>, d: seq<T>, b: nat, parts: seq<seq<T>>)
    requires Flatten(tiles) == src && b < 256 && Histograms(tc)
    requires Totals(tc) == Counts(rk, src, level) && |d| == |src|
    requires parts == seq(|tiles|, k requires 0 <= k < |tiles| => Bucket(rk, tiles[k], level, b))
    requires Sum(Totals(tc)[..b]) + Totals(tc)[b] <= |d|
    requires LaidOut(d[Sum(Totals(tc)[..b])..Sum(Totals(tc)[..b]) + Totals(tc)[b]], parts, Column(tc, b))
    ensures var counts := Counts(rk, src, level);
            && Sum(counts[..b]) + counts[b] <= |d|
            && d[Sum(counts[..b])..Sum(counts[..b]) + counts[b]] == Buckets(rk, src, level)[b]
  {
    var lo := Sum(Totals(tc)[..b]);
    RegionsFlatten(d[lo..lo + Totals(tc)[b]], parts, Column(tc, b));
    BucketFlatten(rk, tiles, level, b);
  }

  /** The chunks of digit b, one per tile, are laid out one after another in row b. */
  lemma RowLaidOut<T>(rk: RadixKey<T>, tiles: seq<seq<T>>, level: nat, tc: seq<seq<nat>>,
                      d: seq<T>, b: nat, parts: seq<seq<T>>)
    requires TilesDone(rk, tiles, level, tc, |tiles|, d) && b < 256
    requires |d| == Sum(Totals(tc))
    requires |parts| == |tiles| && forall t :: 0 <= t < |tiles| ==> parts[t] == Bucket(rk, tiles[t], level, b)
    ensures Sum(Totals(tc)[..b]) + Totals(tc)[b] <= |d|
    ensures LaidOut(d[Sum(Totals(tc)[..b])..Sum(Totals(tc)[..b]) + Totals(tc)[b]], parts, Column(tc, b))
  {
    var lo := Sum(Totals(tc)[..b]);
    var col := Column(tc, b);
    SumPrefixBound(Totals(tc), b);
    var row := d[lo..lo + Totals(tc)[b]];
    forall t | 0 <= t < |parts|
      ensures Sum(col[..t]) + col[t] <= |row| && row[Sum(col[..t])..Sum(col[..t]) + col[t]] == parts[t]
    {
      assert ChunkFilled(rk, tiles, level, tc, b, t, d);
      RowPart(rk, tiles, level, tc, d, b, t);
    }
  }

  /** One tiled LSD pass at `level` from `src` into `dst`: the minor counts, the chunks
      of every tile, then every tile scattered into its own chunks. `tileCounts` must be
      the histograms of the `tileSize`-item tiles of `src`. The result is the stable
      grouping of `src` by the digit at `level`. */
  method MtLsbSort<T>(rk: RadixKey<T>, src: seq<T>, dst: array<T>, tileCounts: seq<seq<nat>>,
                      tileSize: nat, level: nat)
    requires tileSize > 0 && dst.Length == |src|
    requires |tileCounts| == |Tiles(src, tileSize)|
    requires forall t :: 0 <= t < |tileCounts| ==> tileCounts[t] == Counts(rk, Tiles(src, tileSize)[t], level)
    modifies dst
    ensures dst[..] == Grouped(rk, src, level)
  {
    TotalsAreCounts(rk, src, tileSize, level, tileCounts);
    SumCounts(rk, src, level);
    var minor := MinorCounts(tileCounts);
    var collated := Collate(tileCounts, minor);
    var tiles := Tiles(src, tileSize);
    for t := 0 to |tiles|
      invariant TilesDone(rk, tiles, level, tileCounts, t, dst[..])
    {
      ScatterTileStep(rk, tiles, level, tileCounts, t, collated[t], dst);
    }
    TilesDoneGrouped(rk, src, tiles, level, tileCounts, dst[..]);
  }

  /** One iteration of the per-tile loop: tile t scattered into its own chunks. */
  method ScatterTileStep<T>(rk: RadixKey<T>, tiles: seq<seq<T>>, level: nat, tc: seq<seq<nat>>,
                            t: nat, chunks: seq<Chunk>, dst: array<T>)
    requires TilesDone(rk, tiles, level, tc, t, dst[..]) && t < |tc|
    requires dst.Length == Sum(Totals(tc)) && tc[t] == Counts(rk, tiles[t], level)
    requires |chunks| == 256 && forall b :: 0 <= b < 256 ==> chunks[b] == ChunkOf(tc, b, t)
    modifies dst
    ensures TilesDone(rk, tiles, level, tc, t + 1, dst[..])
  {
    TileChunksOrdered(tc, t, chunks);
    ghost var before := dst[..];
    ScatterTile(rk, tiles[t], level, chunks, dst);
    TilesDoneStep(rk, tiles, level, tc, t, chunks, before, dst[..]);
  }

  // ---------------------------------------------------------------- the adapters

  /** Copies `src` into `dst`; the source copies tile by tile in parallel. */
  method CopyBack<T>(src: array<T>, dst: array<T>)
    requires src.Length == dst.Length && src != dst
    modifies dst
    ensures dst[..] == src[..]
  {
    for i := 0 to dst.Length
      invariant forall j :: 0 <= j < i ==> dst[j] == src[j]
    {
      dst[i] := src[i];
    }
  }

  /** Tiled LSD passes at the levels `startLevel`, `startLevel + 1`, ..., `endLevel`,
      alternating between `bucket` and a scratch buffer, the result copied back into
      `bucket` after an odd number of passes. Slices of fewer than 2 items are left
      as they are. */
  method MtLsbSortAdapter<T(0)>(rk: RadixKey<T>, bucket: array<T>, startLevel: nat, endLevel: nat, tileSize: nat)
    requires tileSize > 0
    modifies bucket
    ensures bucket.Length < 2 ==> bucket[..] == old(bucket[..])
    ensures bucket.Length >= 2 ==> bucket[..] == LsdPasses(rk, old(bucket[..]), Range(startLevel, endLevel + 1))
  {
    if bucket.Length < 2 {
      return;
    }
    ghost var s0 := bucket[..];
    var tmp: array<T> := GetTmpBucket(bucket.Length);
    var levels := Range(startLevel, endLevel + 1);
    var invert := false;
    for k := 0 to |levels|
      invariant (if invert then tmp[..] else bucket[..]) == LsdPasses(rk, s0, levels[..k])
    {
      var level := levels[k];
      ghost var cur := if invert then tmp[..] else bucket[..];
      if invert {
        var tileCounts := GetTileCounts(rk, tmp[..], tileSize, level);
        MtLsbSort(rk, tmp[..], bucket, tileCounts, tileSize, level);
      } else {
        var tileCounts := GetTileCounts(rk, bucket[..], tileSize, level);
        MtLsbSort(rk, bucket[..], tmp, tileCounts, tileSize, level);
      }
      invert := !invert;
      LsdPassesOneMore(rk, s0, levels, k);
    }
    assert levels[..|levels|] == levels;
    if invert {
      CopyBack(tmp, bucket);
    }
  }

  /** One more pass at `ls[k]` after the passes at `ls[..k]`. */
  lemma LsdPassesOneMore<T>(rk: RadixKey<T>, s: seq<T>, ls: seq<nat>, k: nat)
    requires k < |ls|
    ensures LsdPasses(rk, s, ls[..k + 1]) == Grouped(rk, LsdPasses(rk, s, ls[..k]), ls[k])
  {
    assert ls[..k + 1] == ls[..k] + [ls[k]];
    LsdPassesAppend(rk, s, ls[..k], [ls[k]]);
  }

  /** The adapter sorts by the levels it visits, the last one visited most significant. */
  lemma MtLsbSortAdapterSorts<T>(rk: RadixKey<T>, s: seq<T>, startLevel: nat, endLevel: nat)
    ensures var r := LsdPasses(rk, s, Range(startLevel, endLevel + 1));
            && SortedBy(rk, r, Reverse(Range(startLevel, endLevel + 1)))
            && multiset(r) == multiset(s)
  {
    LsdPassesSort(rk, s, Range(startLevel, endLevel + 1));
  }

  /** What `mt_oop_sort_adapter` does after its pass: nothing, or call the director at
      the next level down with the caller's counts. */
  datatype Continuation = Stop | DirectorAt(level: nat, counts: seq<nat>)

  /** One tiled pass at `level` through a scratch buffer, copied back, then a director
      call at `level - 1`, which the source computes unchecked: `level` must be at
      least 1 whenever the slice has more than one item. */
  method MtOopSortAdapter<T(0)>(rk: RadixKey<T>, bucket: array<T>, level: nat, counts: seq<nat>,
                                tileCounts: seq<seq<nat>>, tileSize: nat)
    returns (next: Continuation)
    requires bucket.Length > 1 ==> level >= 1
    requires tileSize > 0 && |tileCounts| == |Tiles(bucket[..], tileSize)|
    requires forall t :: 0 <= t < |tileCounts| ==> tileCounts[t] == Counts(rk, Tiles(bucket[..], tileSize)[t], level)
    modifies bucket
    ensures bucket.Length <= 1 ==> bucket[..] == old(bucket[..]) && next == Stop
    ensures bucket.Length > 1 ==>
              bucket[..] == Grouped(rk, old(bucket[..]), level) && next == DirectorAt(level - 1, counts)
  {
    if bucket.Length <= 1 {
      return Stop;
    }
    var tmp: array<T> := GetTmpBucket(bucket.Length);
    MtLsbSort(rk, bucket[..], tmp, tileCounts, tileSize, level);
    CopyBack(tmp, bucket);
    next := DirectorAt(level - 1, counts);
  }
}
