/** The `RadixKey` implementations of `radix_key_impl.rs`: the unsigned integers by their
    big-endian bytes, and byte arrays by their elements. Integers are unbounded `nat`s
    here; a value of a `W`-byte type is one below `Pow256(W)`. */
module RadixKeyImpl {
  import opened RadixKeys

  // ---------------------------------------------------------------- arithmetic

  function Pow256(k: nat): (p: nat)
    ensures p >= 1
  {
    if k == 0 then 1 else 256 * Pow256(k - 1)
  }

  /** Quotient and remainder are the unique pair with `a == q * n + r` and `0 <= r < n`. */
  lemma DivModUnique(a: int, n: int, q: int, r: int)
    requires n > 0 && 0 <= r < n && a == q * n + r
    ensures a / n == q && a % n == r
  {
    var q' := a / n;
    assert (q - q') * n == a % n - r;
    if q > q' {
      MulAtLeast(q - q', n);
      assert false;
    } else if q < q' {
      MulAtLeast(q' - q, n);
      assert false;
    }
  }

  lemma {:induction false} MulAtLeast(k: int, n: int)
    requires k >= 1 && n > 0
    ensures k * n >= n
    decreases k
  {
    if k > 1 {
      MulAtLeast(k - 1, n);
      assert k * n == (k - 1) * n + n;
    }
  }

  /** The remainder by 256^(k+1) splits into byte k and the remainder by 256^k. */
  lemma ModNextPow(x: nat, k: nat)
    ensures x % Pow256(k + 1) == ((x / Pow256(k)) % 256) * Pow256(k) + x % Pow256(k)
  {
    var p := Pow256(k);
    var q := x / p;
    var r := x % p;
    var d := q % 256;
    assert x == q * p + r;
    assert q == (q / 256) * 256 + d;
    SplitProduct(q / 256, d, p);
    ByteTimesBelow(d, p);
    DivModUnique(x, 256 * p, q / 256, d * p + r);
  }

  lemma SplitProduct(a: int, d: int, p: int)
    ensures (a * 256 + d) * p == a * (256 * p) + d * p
  {
  }

  lemma ByteTimesBelow(d: nat, p: nat)
    requires d < 256
    ensures d * p + p <= 256 * p
  {
  }

  /** Comparing two-part numbers `a * p + r` with `0 <= r < p` is comparing the high
      parts first and then the low parts. */
  lemma HighLowOrder(a: nat, b: nat, p: nat, r: nat, r': nat)
    requires r < p && r' < p
    ensures a * p + r <= b * p + r' <==> a < b || (a == b && r <= r')
  {
    if a < b {
      assert (b - a) * p >= p by {
        MulAtLeast(b - a, p);
      }
      assert b * p - a * p == (b - a) * p;
    } else if a > b {
      assert (a - b) * p >= p by {
        MulAtLeast(a - b, p);
      }
      assert a * p - b * p == (a - b) * p;
    }
  }

  // ---------------------------------------------------------------- unsigned integers

  /** Byte `level` of a `W`-byte unsigned integer, level 0 the most significant: the value
      shifted right by `(W - 1 - level) * 8` bits and truncated to 8 bits. Levels from `W`
      on are never asked for. */
  function UintDigit(w: nat, x: nat, level: nat): byte
  {
    if level < w then (x / Pow256(w - 1 - level)) % 256 else 0
  }

  /** The key of a `W`-byte unsigned integer type. */
  function UintKey(w: nat): (rk: RadixKey<nat>)
    ensures rk.levels == w
    ensures forall x: nat, l: nat :: Digit(rk, x, l) == UintDigit(w, x, l)
  {
    RadixKey(w, (x: nat, l: nat) => UintDigit(w, x, l))
  }

  /** `u8`: one level, the value itself. */
  const U8Key: RadixKey<byte> := RadixKey(1, (x: byte, l: nat) => x)

  const U16Key: RadixKey<nat> := UintKey(2)
  const U32Key: RadixKey<nat> := UintKey(4)
  const U64Key: RadixKey<nat> := UintKey(8)
  const U128Key: RadixKey<nat> := UintKey(16)

  /** `usize`, whose number of levels follows the target's pointer width. */
  function UsizeKey(pointerWidth: nat): (rk: RadixKey<nat>)
    requires pointerWidth == 16 || pointerWidth == 32 || pointerWidth == 64
    ensures rk.levels * 8 == pointerWidth && rk == UintKey(rk.levels)
  {
    if pointerWidth == 16 then UintKey(2)
    else if pointerWidth == 32 then UintKey(4)
    else UintKey(8)
  }

  /** The `u8` key orders bytes as numbers. */
  lemma U8KeyOrder(x: byte, y: byte)
    ensures LexLe(U8Key, x, y, Levels(U8Key)) <==> x <= y
  {
    assert Levels(U8Key) == [0];
    assert Levels(U8Key)[1..] == [];
  }

  /** Comparing the low k bytes of two `W`-byte integers is comparing their values
      modulo 256^k. */
  lemma {:induction false} UintLowLevelsOrder(w: nat, x: nat, y: nat, k: nat)
    requires k <= w
    ensures LexLe(UintKey(w), x, y, Range(w - k, w)) <==> x % Pow256(k) <= y % Pow256(k)
    decreases k
  {
    var rk := UintKey(w);
    if k > 0 {
      var l := w - k;
      var ls := Range(l, w);
      assert ls[0] == l && ls[1..] == Range(l + 1, w);
      UintLowLevelsOrder(w, x, y, k - 1);
      var p := Pow256(k - 1);
      assert w - 1 - l == k - 1;
      ModNextPow(x, k - 1);
      ModNextPow(y, k - 1);
      HighLowOrder((x / p) % 256, (y / p) % 256, p, x % p, y % p);
    }
  }

  /** The key order of a `W`-byte unsigned integer type is the numeric order. */
  lemma UintKeyOrder(w: nat, x: nat, y: nat)
    requires x < Pow256(w) && y < Pow256(w)
    ensures LexLe(UintKey(w), x, y, Levels(UintKey(w))) <==> x <= y
  {
    UintLowLevelsOrder(w, x, y, w);
    DivModUnique(x, Pow256(w), 0, x);
    DivModUnique(y, Pow256(w), 0, y);
  }

  /** The bytes of a `W`-byte integer, most significant first. */
  function Bytes(w: nat, x: nat): (ds: seq<byte>)
    ensures |ds| == w && forall l :: 0 <= l < w ==> ds[l] == Digit(UintKey(w), x, l)
  {
    seq(w, l requires 0 <= l < w => UintDigit(w, x, l))
  }

  /** The big-endian value of a byte string. */
  function FromBytes(ds: seq<byte>): nat
  {
    if |ds| == 0 then 0 else ds[0] * Pow256(|ds| - 1) + FromBytes(ds[1..])
  }

  /** The bytes `get_level` hands out recompose to the value modulo 256^W, so to the value
      itself for one of the type: no information is lost between the levels. */
  lemma {:induction false} FromBytesOfBytes(w: nat, x: nat)
    ensures FromBytes(Bytes(w, x)) == x % Pow256(w)
    decreases w
  {
    if w > 0 {
      var ds := Bytes(w, x);
      assert ds[1..] == Bytes(w - 1, x);
      FromBytesOfBytes(w - 1, x);
      ModNextPow(x, w - 1);
    }
  }

  lemma BytesRoundTrip(w: nat, x: nat)
    requires x < Pow256(w)
    ensures FromBytes(Bytes(w, x)) == x
  {
    FromBytesOfBytes(w, x);
    DivModUnique(x, Pow256(w), 0, x);
  }

  // ---------------------------------------------------------------- byte arrays

  /** `[u8; N]`: N levels, level l the element at index l. */
  function ArrayKey(n: nat): (rk: RadixKey<seq<byte>>)
    ensures rk.levels == n
    ensures forall a: seq<byte>, l: nat :: l < |a| ==> Digit(rk, a, l) == a[l]
  {
    RadixKey(n, (a: seq<byte>, l: nat) => if l < |a| then a[l] else 0)
  }

  /** The lexicographic order of equally long byte strings, which `Ord` of arrays is. */
  predicate BytesLe(a: seq<byte>, b: seq<byte>)
    requires |a| == |b|
  {
    |a| == 0 || a[0] < b[0] || (a[0] == b[0] && BytesLe(a[1..], b[1..]))
  }

  lemma {:induction false} ArraySuffixOrder(n: nat, a: seq<byte>, b: seq<byte>, k: nat)
    requires |a| == n && |b| == n && k <= n
    ensures LexLe(ArrayKey(n), a, b, Range(k, n)) <==> BytesLe(a[k..], b[k..])
    decreases n - k
  {
    if k < n {
      var ls := Range(k, n);
      assert ls[0] == k && ls[1..] == Range(k + 1, n);
      assert a[k..][1..] == a[k + 1..] && b[k..][1..] == b[k + 1..];
      ArraySuffixOrder(n, a, b, k + 1);
    }
  }

  /** The key order of `[u8; N]` is the lexicographic order of its elements. */
  lemma ArrayKeyOrder(n: nat, a: seq<byte>, b: seq<byte>)
    requires |a| == n && |b| == n
    ensures LexLe(ArrayKey(n), a, b, Levels(ArrayKey(n))) <==> BytesLe(a, b)
  {
    ArraySuffixOrder(n, a, b, 0);
    assert a[0..] == a && b[0..] == b;
  }
}
