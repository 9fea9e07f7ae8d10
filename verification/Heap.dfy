/** The size `Ps3Source::acquire` asks the kernel for. */
module Heap {
  import opened Bytes

  const METADATA: nat := 4096
  const MIN_CHUNK: nat := 4 * 1024 * 1024
  const PAGE: nat := 0x1_0000

  /** Bit `k` of a number. */
  predicate Bit(x: nat, k: nat) { if k == 0 then x % 2 == 1 else Bit(x / 2, k - 1) }

  /** `x` with its `n` low bits cleared, bit by bit. */
  function ClearBits(x: nat, n: nat): nat { if n == 0 then x else 2 * ClearBits(x / 2, n - 1) }

  /** `x & !0xFFFF` */
  function MaskLow(x: u64): u64 { x - x % PAGE }

  /** `size` and `align` of a layout, without 64-bit overflow. */
  predicate Fits(size: nat, align: nat) {
    Max(size + align + METADATA, MIN_CHUNK) + 0xFFFF < TWO64
  }

  function AcquireSize(size: nat, align: nat): u64
    requires Fits(size, align)
  {
    var minSize := size + align + METADATA;
    var chunkSize := Max(minSize, MIN_CHUNK);
    MaskLow(chunkSize + 0xFFFF)
  }

  lemma {:induction false} ClearBitsIs(x: nat, n: nat, k: nat)
    ensures Bit(ClearBits(x, n), k) == (k >= n && Bit(x, k))
  {
    if n > 0 && k > 0 { ClearBitsIs(x / 2, n - 1, k - 1); }
  }

  /** Four bits at a time. */
  lemma {:induction false} ClearFour(x: nat, n: nat)
    ensures ClearBits(x, n + 4) == 16 * ClearBits(x / 16, n)
  {
    assert ClearBits(x, n + 4) == 2 * ClearBits(x / 2, n + 3);
    assert ClearBits(x / 2, n + 3) == 2 * ClearBits(x / 2 / 2, n + 2);
    assert ClearBits(x / 2 / 2, n + 2) == 2 * ClearBits(x / 2 / 2 / 2, n + 1);
    assert ClearBits(x / 2 / 2 / 2, n + 1) == 2 * ClearBits(x / 2 / 2 / 2 / 2, n);
    assert x / 2 / 2 / 2 / 2 == x / 16;
  }

  lemma {:induction false} ClearSixteen(x: nat)
    ensures ClearBits(x, 16) == PAGE * (x / PAGE)
  {
    hide ClearBits;
    ClearFour(x, 12); ClearFour(x / 16, 8); ClearFour(x / 16 / 16, 4); ClearFour(x / 16 / 16 / 16, 0);
    ClearNone(x / 16 / 16 / 16 / 16);
    assert x / 16 / 16 / 16 / 16 == x / PAGE;
  }

  lemma {:induction false} ClearNone(x: nat)
    ensures ClearBits(x, 0) == x
  {
  }

  /** The mask clears bits 0 to 15 and keeps every other bit. */
  lemma {:induction false} MaskClearsLowBits(x: u64, k: nat)
    ensures Bit(MaskLow(x), k) == (k >= 16 && Bit(x, k))
  {
    hide ClearBits, Bit;
    ClearSixteen(x);
    ClearBitsIs(x, 16, k);
  }

  /** The size is the least multiple of 64 KiB that is at least 4 MiB and holds
      the block, its alignment slack and 4096 bytes of metadata. */
  lemma {:induction false} AcquireIsLeastMultiple(size: nat, align: nat, n: nat)
    requires Fits(size, align)
    ensures var least, got := size + align + 4096, AcquireSize(size, align);
      && got % 0x1_0000 == 0 && got >= least && got >= 4 * 1024 * 1024
      && (n % 0x1_0000 == 0 && n >= least && n >= 4 * 1024 * 1024 ==> n >= got)
  {
    var need := Max(size + align + METADATA, MIN_CHUNK);
    var x := need + 0xFFFF;
    assert x == PAGE * (x / PAGE) + x % PAGE;
    assert n == PAGE * (n / PAGE) + n % PAGE;
  }

  /** From any base address the chunk has room for up to 4096 bytes of metadata
      and then a block of the requested size at a multiple of the alignment. */
  lemma {:induction false} ChunkHoldsBlock(size: nat, align: nat, base: nat, meta: nat) returns (p: nat, q: nat)
    requires Fits(size, align) && align > 0 && meta <= 4096
    ensures p == align * q && base + meta <= p && p + size <= base + AcquireSize(size, align)
  {
    AcquireIsLeastMultiple(size, align, 0);
    var x := base + meta + align - 1;
    q := x / align;
    p := align * q;
    assert x == align * q + x % align;
  }
}
