/** Bytes, the unsigned integer types of the source, and big-endian codecs
    (`from_be_bytes`, `to_be_bytes`, `copy_from_slice`). */
module Bytes {
  type byte = x: int | 0 <= x < 0x100
  type u16 = x: int | 0 <= x < 0x1_0000
  type u32 = x: int | 0 <= x < 0x1_0000_0000
  type u64 = x: int | 0 <= x < 0x1_0000_0000_0000_0000

  const TWO32: int := 0x1_0000_0000
  const TWO64: int := 0x1_0000_0000_0000_0000

  function Lo32(x: nat): u32 { x % TWO32 }

  function Max(a: nat, b: nat): nat { if a >= b then a else b }

  function Pow256(n: nat): (p: nat)
    ensures p >= 1
  {
    if n == 0 then 1 else 256 * Pow256(n - 1)
  }

  /** The `n` low-order bytes of `v`, most significant first. */
  function BE(v: nat, n: nat): (s: seq<byte>)
    ensures |s| == n
  {
    if n == 0 then [] else BE(v / 256, n - 1) + [v % 256]
  }

  /** The number a big-endian byte string denotes. */
  function Val(s: seq<byte>): nat {
    if s == [] then 0 else Val(s[..|s| - 1]) * 256 + s[|s| - 1]
  }

  lemma {:induction false} ValBound(s: seq<byte>)
    ensures Val(s) < Pow256(|s|)
  {
    if s != [] { ValBound(s[..|s| - 1]); }
  }

  lemma {:induction false} ValBE(v: nat, n: nat)
    requires v < Pow256(n)
    ensures Val(BE(v, n)) == v
  {
    if n > 0 {
      ValBE(v / 256, n - 1);
      assert BE(v, n)[..n - 1] == BE(v / 256, n - 1);
    }
  }

  lemma {:induction false} BEVal(s: seq<byte>)
    ensures BE(Val(s), |s|) == s
  {
    if s != [] {
      BEVal(s[..|s| - 1]);
      assert s == s[..|s| - 1] + [s[|s| - 1]];
    }
  }

  /** A wide field is the two halves side by side. */
  lemma {:induction false} BESplit(hi: nat, lo: nat, m: nat, n: nat)
    requires lo < Pow256(n)
    ensures BE(hi * Pow256(n) + lo, m + n) == BE(hi, m) + BE(lo, n)
  {
    if n == 0 {
      assert BE(lo, n) == [];
    } else {
      var p := Pow256(n - 1);
      calc {
        hi * Pow256(n) + lo;
        hi * (256 * p) + lo;
        256 * (hi * p) + lo;
      }
      assert (256 * (hi * p) + lo) / 256 == hi * p + lo / 256;
      assert (256 * (hi * p) + lo) % 256 == lo % 256;
      BESplit(hi, lo / 256, m, n - 1);
      assert BE(hi, m) + BE(lo, n) == BE(hi, m) + BE(lo / 256, n - 1) + [lo % 256];
    }
  }

  lemma {:induction false} Pow256Values()
    ensures Pow256(2) == 0x1_0000 && Pow256(4) == TWO32 && Pow256(8) == TWO64
  {
    assert Pow256(1) == 256 && Pow256(2) == 0x1_0000 && Pow256(3) == 0x100_0000 && Pow256(4) == TWO32;
    assert Pow256(5) == 0x100 * TWO32 && Pow256(6) == 0x1_0000 * TWO32 && Pow256(7) == 0x100_0000 * TWO32;
  }

  /** `from_be_bytes` on a 2-, 4- or 8-byte field. */
  function U16(s: seq<byte>): u16
    requires |s| == 2
  {
    Pow256Values(); ValBound(s); Val(s)
  }

  function U32(s: seq<byte>): u32
    requires |s| == 4
  {
    Pow256Values(); ValBound(s); Val(s)
  }

  function U64(s: seq<byte>): u64
    requires |s| == 8
  {
    Pow256Values(); ValBound(s); Val(s)
  }

  lemma {:induction false} FieldRoundTrip16(v: u16)
    ensures U16(BE(v, 2)) == v
  {
    Pow256Values(); ValBE(v, 2);
  }

  lemma {:induction false} FieldRoundTrip32(v: u32)
    ensures U32(BE(v, 4)) == v
  {
    Pow256Values(); ValBE(v, 4);
  }

  lemma {:induction false} FieldRoundTrip64(v: u64)
    ensures U64(BE(v, 8)) == v
  {
    Pow256Values(); ValBE(v, 8);
  }

  /** Two 32-bit loads see the halves of one 64-bit store, and conversely. */
  lemma {:induction false} Halves(hi: u32, lo: u32)
    ensures BE(hi * TWO32 + lo, 8) == BE(hi, 4) + BE(lo, 4)
    ensures U64(BE(hi, 4) + BE(lo, 4)) == hi * TWO32 + lo
  {
    Pow256Values();
    BESplit(hi, lo, 4, 4);
    FieldRoundTrip64(hi * TWO32 + lo);
  }

  /** The slice assignment `d[off..off + |bs|].copy_from_slice(bs)`. */
  function Put(d: seq<byte>, off: nat, bs: seq<byte>): (r: seq<byte>)
    requires off + |bs| <= |d|
    ensures |r| == |d|
    ensures forall i :: 0 <= i < |d| ==> r[i] == if off <= i < off + |bs| then bs[i - off] else d[i]
  {
    d[..off] + bs + d[off + |bs|..]
  }

  lemma {:induction false} PutRead(d: seq<byte>, off: nat, bs: seq<byte>)
    requires off + |bs| <= |d|
    ensures Put(d, off, bs)[off..off + |bs|] == bs
  {
  }

  lemma {:induction false} PutFrame(d: seq<byte>, off: nat, bs: seq<byte>, lo: nat, hi: nat)
    requires off + |bs| <= |d| && lo <= hi <= |d|
    requires hi <= off || off + |bs| <= lo
    ensures Put(d, off, bs)[lo..hi] == d[lo..hi]
  {
  }

  /** Adjacent writes are one write. */
  lemma {:induction false} PutJoin(d: seq<byte>, off: nat, a: seq<byte>, b: seq<byte>)
    requires off + |a| + |b| <= |d|
    ensures Put(Put(d, off, a), off + |a|, b) == Put(d, off, a + b)
  {
  }

  lemma {:induction false} PutNone(m: seq<byte>, d: nat)
    requires d <= |m|
    ensures Put(m, d, []) == m
  {
  }

  function Zeros(n: nat): (s: seq<byte>)
    ensures |s| == n && forall i :: 0 <= i < n ==> s[i] == 0
  {
    seq(n, _ => 0)
  }

  lemma {:induction false} SliceOfSlice(d: seq<byte>, a: nat, b: nat, x: nat, y: nat)
    requires a <= b <= |d| && x <= y <= b - a
    ensures d[a..b][x..y] == d[a + x..a + y]
  {
    forall k | 0 <= k < y - x ensures d[a..b][x..y][k] == d[a + x..a + y][k] {}
  }

  // ---------- concatenation of chunks ----------

  function Concat(chunks: seq<seq<byte>>): seq<byte> {
    if chunks == [] then [] else Concat(chunks[..|chunks| - 1]) + chunks[|chunks| - 1]
  }

  /** Where chunk `i` starts. */
  function ChunkStart(chunks: seq<seq<byte>>, i: nat): nat
    requires i <= |chunks|
  {
    |Concat(chunks[..i])|
  }

  lemma {:induction false} EmptyStart(cs: seq<seq<byte>>)
    ensures ChunkStart(cs, 0) == 0
  {
    assert cs[..0] == [];
  }

  lemma {:induction false} ConcatAt(chunks: seq<seq<byte>>, i: nat)
    requires i < |chunks|
    ensures ChunkStart(chunks, i) + |chunks[i]| == ChunkStart(chunks, i + 1) <= |Concat(chunks)|
    ensures Concat(chunks)[ChunkStart(chunks, i)..ChunkStart(chunks, i + 1)] == chunks[i]
  {
    var n := |chunks| - 1;
    assert chunks[..i + 1][..i] == chunks[..i];
    if i < n {
      var init := chunks[..n];
      ConcatAt(init, i);
      assert init[..i] == chunks[..i] && init[..i + 1] == chunks[..i + 1];
      assert Concat(chunks)[ChunkStart(chunks, i)..ChunkStart(chunks, i + 1)]
          == Concat(init)[ChunkStart(chunks, i)..ChunkStart(chunks, i + 1)];
    } else {
      assert chunks[..i + 1] == chunks;
    }
  }

  lemma {:induction false} ConcatFixed(chunks: seq<seq<byte>>, size: nat, i: nat)
    requires i <= |chunks| && forall k :: 0 <= k < |chunks| ==> |chunks[k]| == size
    ensures ChunkStart(chunks, i) == size * i
  {
    if i > 0 {
      ConcatFixed(chunks, size, i - 1);
      assert chunks[..i][..i - 1] == chunks[..i - 1];
    } else {
      assert chunks[..0] == [];
    }
  }

  lemma {:induction false} ConcatBound(chunks: seq<seq<byte>>, size: nat)
    requires forall i :: 0 <= i < |chunks| ==> |chunks[i]| <= size
    ensures |Concat(chunks)| <= size * |chunks|
  {
    if chunks != [] {
      var n := |chunks| - 1;
      ConcatBound(chunks[..n], size);
      assert size * n + size == size * |chunks|;
    }
  }
}
