/**
 * The byte source of the loader: little-endian readers over a file image, the
 * integer conversions of C++ (u16/s16/u32 truncation) and the bounds test that
 * every chunk read is guarded by.
 *
 * The readers are total: a byte past the end of the image reads as zero. The
 * loader never relies on that, because each of its reads is preceded by a
 * `Fits` test that fails the load instead (the source reads without any test).
 */
module Bytes {
  /** An unsigned 8-bit byte of a file image. */
  newtype byte = x: int | 0 <= x < 0x100

  /** Number of distinct values of a u16 and of a u32. */
  const U16_RANGE: nat := 0x1_0000
  const U32_RANGE: nat := 0x1_0000_0000

  /** The byte at offset p, or zero past the end of the image. */
  function ByteAt(s: seq<byte>, p: nat): (r: nat)
    ensures r < 0x100
    ensures p < |s| ==> r == s[p] as nat
  {
    if p < |s| then s[p] as nat else 0
  }

  /** A little-endian u16 at offset p. */
  function U16At(s: seq<byte>, p: nat): (r: nat)
    ensures r < U16_RANGE
  {
    ByteAt(s, p) + 0x100 * ByteAt(s, p + 1)
  }

  /** A little-endian u32 at offset p. */
  function U32At(s: seq<byte>, p: nat): (r: nat)
    ensures r < U32_RANGE
  {
    U16At(s, p) + U16_RANGE * U16At(s, p + 2)
  }

  /** The low 16 bits of x, as a u16 (C++ assignment to a u16). */
  function ToU16(x: int): (r: nat)
    ensures r < U16_RANGE && (x - r) % U16_RANGE == 0
    ensures 0 <= x < U16_RANGE ==> r == x
  {
    x % U16_RANGE
  }

  /** The low 32 bits of x, as a u32 (C++ u32 arithmetic wraps). */
  function ToU32(x: int): (r: nat)
    ensures r < U32_RANGE && (x - r) % U32_RANGE == 0
    ensures 0 <= x < U32_RANGE ==> r == x
  {
    x % U32_RANGE
  }

  /** The low 16 bits of x read as two's complement (C++ assignment to an s16). */
  function ToS16(x: int): (r: int)
    ensures -0x8000 <= r < 0x8000 && (x - r) % U16_RANGE == 0
    ensures -0x8000 <= x < 0x8000 ==> r == x
  {
    var u := ToU16(x);
    if u >= 0x8000 then u - U16_RANGE else u
  }

  /** A little-endian s16 at offset p. */
  function S16At(s: seq<byte>, p: nat): (r: int)
    ensures -0x8000 <= r < 0x8000
  {
    ToS16(U16At(s, p))
  }

  /** A little-endian s32 at offset p. */
  function S32At(s: seq<byte>, p: nat): (r: int)
    ensures -0x8000_0000 <= r < 0x8000_0000
  {
    var u := U32At(s, p);
    if u >= 0x8000_0000 then u - U32_RANGE else u
  }

  /** `num` records of `size` bytes from offset `ofs` lie inside the image (nothing is read when num is 0). */
  predicate Fits(s: seq<byte>, ofs: nat, num: nat, size: nat)
  {
    num == 0 || ofs + num * size <= |s|
  }

  /** The two bytes of a u16, low byte first. */
  function LeU16(v: nat): (r: seq<byte>)
    requires v < U16_RANGE
    ensures |r| == 2
  {
    [(v % 0x100) as byte, (v / 0x100) as byte]
  }

  /** The four bytes of a u32, low byte first. */
  function LeU32(v: nat): (r: seq<byte>)
    requires v < U32_RANGE
    ensures |r| == 4
  {
    LeU16(v % U16_RANGE) + LeU16(v / U16_RANGE)
  }

  /** Reading back the bytes of a u16 gives the value, wherever they are placed. */
  lemma U16RoundTrip(v: nat, pre: seq<byte>, post: seq<byte>)
    requires v < U16_RANGE
    ensures U16At(pre + LeU16(v) + post, |pre|) == v
  {
    var s := pre + LeU16(v) + post;
    var lo, hi := v % 0x100, v / 0x100;
    assert s[|pre|] == lo as byte && s[|pre| + 1] == hi as byte;
    ByteRoundTrip(lo);
    ByteRoundTrip(hi);
    assert ByteAt(s, |pre|) == lo && ByteAt(s, |pre| + 1) == hi;
  }

  lemma ByteRoundTrip(b: nat)
    requires b < 0x100
    ensures (b as byte) as nat == b
  {
  }

  /** Reading back the bytes of a u32 gives the value, wherever they are placed. */
  lemma U32RoundTrip(v: nat, pre: seq<byte>, post: seq<byte>)
    requires v < U32_RANGE
    ensures U32At(pre + LeU32(v) + post, |pre|) == v
  {
    var lo, hi := v % U16_RANGE, v / U16_RANGE;
    assert pre + LeU32(v) + post == pre + LeU16(lo) + (LeU16(hi) + post);
    assert pre + LeU32(v) + post == (pre + LeU16(lo)) + LeU16(hi) + post;
    U16RoundTrip(lo, pre, LeU16(hi) + post);
    U16RoundTrip(hi, pre + LeU16(lo), post);
  }

  /** An s16 survives being stored as its u16 bit pattern. */
  lemma S16RoundTrip(x: int, pre: seq<byte>, post: seq<byte>)
    requires -0x8000 <= x < 0x8000
    ensures S16At(pre + LeU16(ToU16(x)) + post, |pre|) == x
  {
    var u := ToU16(x);
    U16RoundTrip(u, pre, post);
    if x < 0 {
      assert u == x + U16_RANGE;
    }
    assert ToS16(u) == x;
  }

  /** Record k of a table lies inside the table. */
  lemma StrideFits(ofs: nat, num: nat, size: nat, k: nat)
    requires k < num
    ensures ofs + k * size + size <= ofs + num * size
  {
    assert (k + 1) * size <= num * size by {
      MulMonotone(k + 1, num, size);
    }
  }

  lemma MulMonotone(x: nat, y: nat, z: nat)
    requires x <= y
    ensures x * z <= y * z
  {
  }

  /** `num` records of `size` bytes from offset `ofs`, each decoded by f at its own offset. */
  function Table<T>(s: seq<byte>, ofs: nat, num: nat, size: nat, f: (seq<byte>, nat) -> T): (r: seq<T>)
    ensures |r| == num
  {
    seq(num, k requires 0 <= k < num => f(s, ofs + k * size))
  }

  /** Record k of a table is decoded at ofs + k * size. */
  lemma TableAt<T>(s: seq<byte>, ofs: nat, num: nat, size: nat, f: (seq<byte>, nat) -> T)
    ensures forall k :: 0 <= k < num ==> Table(s, ofs, num, size, f)[k] == f(s, ofs + k * size)
  {
  }

  /** A table of i + 1 records is the table of i records and one more. */
  lemma TableSnoc<T>(s: seq<byte>, ofs: nat, i: nat, size: nat, f: (seq<byte>, nat) -> T)
    ensures Table(s, ofs, i + 1, size, f) == Table(s, ofs, i, size, f) + [f(s, ofs + i * size)]
  {
  }

  /** A table of n + 1 records is its first record and the table of n records after it. */
  lemma TableCons<T>(s: seq<byte>, ofs: nat, n: nat, size: nat, f: (seq<byte>, nat) -> T)
    ensures Table(s, ofs, n + 1, size, f) == [f(s, ofs)] + Table(s, ofs + size, n, size, f)
  {
    var t, u := Table(s, ofs, n + 1, size, f), Table(s, ofs + size, n, size, f);
    forall k | 1 <= k < n + 1
      ensures t[k] == u[k - 1]
    {
      assert ofs + k * size == ofs + size + (k - 1) * size;
    }
  }

  lemma Regroup(a: seq<byte>, b: seq<byte>, c: seq<byte>, d: seq<byte>)
    ensures a + (b + c) + d == a + b + (c + d) == (a + b) + c + d
  {
  }

  /** A list of u16 values written out back to back, low byte first. */
  function EncodeU16s(xs: seq<nat>): (r: seq<byte>)
    requires forall k :: 0 <= k < |xs| ==> xs[k] < U16_RANGE
    ensures |r| == 2 * |xs|
  {
    if xs == [] then [] else LeU16(xs[0]) + EncodeU16s(xs[1..])
  }

  /** A list of u32 values written out back to back, low byte first. */
  function EncodeU32s(xs: seq<nat>): (r: seq<byte>)
    requires forall k :: 0 <= k < |xs| ==> xs[k] < U32_RANGE
    ensures |r| == 4 * |xs|
  {
    if xs == [] then [] else LeU32(xs[0]) + EncodeU32s(xs[1..])
  }

  /** Reading a u16 table back from its encoding gives the list, wherever it is placed. */
  lemma {:induction false} U16TableRoundTrip(xs: seq<nat>, pre: seq<byte>, post: seq<byte>)
    requires forall k :: 0 <= k < |xs| ==> xs[k] < U16_RANGE
    ensures Table(pre + EncodeU16s(xs) + post, |pre|, |xs|, 2, U16At) == xs
    decreases |xs|
  {
    if xs != [] {
      var head, rest := LeU16(xs[0]), EncodeU16s(xs[1..]);
      assert EncodeU16s(xs) == head + rest;
      var s := pre + EncodeU16s(xs) + post;
      Regroup(pre, head, rest, post);
      assert s == pre + head + (rest + post) && s == (pre + head) + rest + post;
      U16RoundTrip(xs[0], pre, rest + post);
      assert U16At(s, |pre|) == xs[0];
      U16TableRoundTrip(xs[1..], pre + head, post);
      assert Table(s, |pre| + 2, |xs| - 1, 2, U16At) == xs[1..];
      TableCons(s, |pre|, |xs| - 1, 2, U16At);
      assert xs == [xs[0]] + xs[1..];
    }
  }

  /** Reading a u32 table back from its encoding gives the list, wherever it is placed. */
  lemma {:induction false} U32TableRoundTrip(xs: seq<nat>, pre: seq<byte>, post: seq<byte>)
    requires forall k :: 0 <= k < |xs| ==> xs[k] < U32_RANGE
    ensures Table(pre + EncodeU32s(xs) + post, |pre|, |xs|, 4, U32At) == xs
    decreases |xs|
  {
    if xs != [] {
      var head, rest := LeU32(xs[0]), EncodeU32s(xs[1..]);
      assert EncodeU32s(xs) == head + rest;
      var s := pre + EncodeU32s(xs) + post;
      Regroup(pre, head, rest, post);
      assert s == pre + head + (rest + post) && s == (pre + head) + rest + post;
      U32RoundTrip(xs[0], pre, rest + post);
      assert U32At(s, |pre|) == xs[0];
      U32TableRoundTrip(xs[1..], pre + head, post);
      assert Table(s, |pre| + 4, |xs| - 1, 4, U32At) == xs[1..];
      TableCons(s, |pre|, |xs| - 1, 4, U32At);
      assert xs == [xs[0]] + xs[1..];
    }
  }

  /** Inside a window w of the image (w starts at offset p) the readers see the same bytes. */
  lemma Window(s: seq<byte>, p: nat, w: seq<byte>)
    requires p + |w| <= |s| && w == s[p..p + |w|]
    ensures forall k :: 0 <= k < |w| ==> ByteAt(w, k) == ByteAt(s, p + k)
  {
  }

  /** A u32 inside a window reads the same as in the whole image. */
  lemma U32Local(s: seq<byte>, p: nat, w: seq<byte>, q: nat)
    requires p + |w| <= |s| && w == s[p..p + |w|] && q + 4 <= |w|
    ensures U32At(w, q) == U32At(s, p + q) && U16At(w, q) == U16At(s, p + q) && U16At(w, q + 2) == U16At(s, p + q + 2)
  {
    Window(s, p, w);
  }
}
