/** What the `.opd` pass means on decoded function descriptors
    (64-bit PowerPC ELF ABI Supplement 1.9, section 3.2.5). */
module Descriptors {
  import opened Bytes
  import opened Elf
  import opened Passes
  import opened Locality

  datatype Descriptor = Descriptor(func: u64, toc: u64, data: u64)

  function DecodeAt(d: seq<byte>, off: nat): Descriptor
    requires off + DESCRIPTOR_SIZE <= |d|
  {
    Descriptor(U64(d[off..off + 8]), U64(d[off + 8..off + 16]), U64(d[off + 16..off + 24]))
  }

  /** Descriptor `i` of the image whose buffer is `d`. */
  function DescriptorAt(g: Image, d: seq<byte>, i: nat): Descriptor
    requires OpdBase(g) + DESCRIPTOR_SIZE * (i + 1) <= |d|
  {
    DecodeAt(d, OpdBase(g) + DESCRIPTOR_SIZE * i)
  }

  /** The data word always becomes the packed pair; the function word only in
      an entry descriptor; the TOC word never changes. */
  function Packed(entry: bool, d: Descriptor): Descriptor {
    Descriptor(if entry then Pack(d.func, d.toc) else d.func, d.toc, Pack(d.func, d.toc))
  }

  lemma {:induction false} StepDescriptor(g: Image, i: nat, d: seq<byte>)
    requires ".opd" in g.sections && OpdBase(g) + DESCRIPTOR_SIZE * (i + 1) <= |d|
    ensures var was := DescriptorAt(g, d, i);
      DescriptorAt(g, OpdStep(g, i, d), i) == Packed(MatchesEntry(g, i, was.func), was)
  {
    hide BE, U64;
    var o := OpdBase(g) + DESCRIPTOR_SIZE * i;
    var func, toc := FuncAt(d, o), TocAt(d, o);
    Halves(Lo32(func), Lo32(toc));
    FieldRoundTrip64(Pack(func, toc));
    var r := OpdStep(g, i, d);
    assert r[o + 16..o + 24] == BE(Pack(func, toc), 8);
    assert r[o + 8..o + 16] == d[o + 8..o + 16];
    if MatchesEntry(g, i, func) {
      assert r[o..o + 8] == BE(Lo32(func), 4) + BE(Lo32(toc), 4);
    } else {
      assert r[o..o + 8] == d[o..o + 8];
    }
  }

  /** Equal bytes decode equally. */
  lemma {:induction false} SameDescriptor(g: Image, d: seq<byte>, e: seq<byte>, i: nat)
    requires |d| == |e| && OpdBase(g) + DESCRIPTOR_SIZE * (i + 1) <= |d|
    requires forall k :: OpdBase(g) + DESCRIPTOR_SIZE * i <= k < OpdBase(g) + DESCRIPTOR_SIZE * (i + 1) ==> d[k] == e[k]
    ensures DescriptorAt(g, d, i) == DescriptorAt(g, e, i)
  {
    hide U64;
    var o := OpdBase(g) + DESCRIPTOR_SIZE * i;
    assert d[o..o + 8] == e[o..o + 8] && d[o + 8..o + 16] == e[o + 8..o + 16] && d[o + 16..o + 24] == e[o + 16..o + 24];
  }

  lemma {:induction false} UpToDescriptor(g: Image, n: nat, d: seq<byte>, i: nat)
    requires i < n && ".opd" in g.sections && OpdBase(g) + DESCRIPTOR_SIZE * n <= |d|
    ensures var was := DescriptorAt(g, d, i);
      DescriptorAt(g, OpdUpTo(g, n, d), i) == Packed(MatchesEntry(g, i, was.func), was)
  {
    hide OpdStep, DecodeAt, Packed, MatchesEntry;
    var m := OpdUpTo(g, n - 1, d);
    if i == n - 1 {
      OpdUpToFrame(g, n - 1, d);
      SameDescriptor(g, d, m, i);
      StepDescriptor(g, i, m);
    } else {
      UpToDescriptor(g, n - 1, d, i);
      OpdStepFrame(g, n - 1, m);
      SameDescriptor(g, m, OpdStep(g, n - 1, m), i);
    }
  }

  /** After the pass, over any number of descriptors: every data word holds
      (lo32 func, lo32 toc) of the original descriptor, every TOC word is
      untouched, and a function word changes only in an entry descriptor. */
  lemma {:induction false} PassPacksEveryDescriptor(g: Image, i: nat)
    requires OpdFits(g) && i < OpdCount(g)
    ensures var was := DescriptorAt(g, g.data, i);
      && DescriptorAt(g, Opd(g).data, i) == Packed(MatchesEntry(g, i, was.func), was)
      && DescriptorAt(g, Opd(g).data, i).data / TWO32 == Lo32(was.func)
      && DescriptorAt(g, Opd(g).data, i).data % TWO32 == Lo32(was.toc)
  {
    hide OpdUpTo, DecodeAt, MatchesEntry;
    UpToDescriptor(g, OpdCount(g), g.data, i);
  }

  /** Two 32-bit fields are the halves of the 64-bit one. */
  lemma {:induction false} FieldHalves(d: seq<byte>, off: nat)
    requires off + 8 <= |d|
    ensures U64(d[off..off + 8]) == U32(d[off..off + 4]) * TWO32 + U32(d[off + 4..off + 8])
  {
    hide BE, Val;
    var a, b := U32(d[off..off + 4]), U32(d[off + 4..off + 8]);
    BEVal(d[off..off + 4]); BEVal(d[off + 4..off + 8]);
    assert d[off..off + 8] == BE(a, 4) + BE(b, 4);
    Halves(a, b);
  }

  // ---------- running the pass a second time ----------

  /** Packing again shifts the TOC into the function half. */
  lemma {:induction false} PackTwice(func: u64, toc: u64)
    ensures Pack(Pack(func, toc), toc) == Lo32(toc) * TWO32 + Lo32(toc)
    ensures Pack(Pack(func, toc), toc) == Pack(func, toc) <==> Lo32(func) == Lo32(toc)
  {
  }

  predicate IsEntry(g: Image, d: seq<byte>, i: nat)
    requires ".opd" in g.sections && OpdBase(g) + DESCRIPTOR_SIZE * (i + 1) <= |d|
  {
    MatchesEntry(g, i, DescriptorAt(g, d, i).func)
  }

  /** The first pass leaves an entry descriptor that is one again: by its address,
      or because the packed word it now starts with is the value of `_start`. */
  predicate Rematches(g: Image, i: nat, was: Descriptor)
    requires ".opd" in g.sections
  {
    || g.sections[".opd"].addr + DESCRIPTOR_SIZE * i == g.entry
    || (StartCode(g) != 0 && Pack(was.func, was.toc) == StartCode(g))
  }

  /** A descriptor after the second pass: a non-entry descriptor is stable; an
      entry that matches again ends as (toc32, toc32) in its first and third
      doublewords; an entry that no longer matches keeps its function word and
      its data word becomes (toc32, toc32). */
  lemma {:induction false} SecondPass(g: Image, h: Image, i: nat)
    requires OpdFits(g) && i < OpdCount(g) && SameButData(g.(phnum := h.phnum), h)
    requires DescriptorAt(g, h.data, i) == DescriptorAt(g, Opd(g).data, i)
    ensures var was, once, twice := DescriptorAt(g, g.data, i), DescriptorAt(g, h.data, i),
        DescriptorAt(g, Opd(h).data, i);
      var tt := Lo32(was.toc) * TWO32 + Lo32(was.toc);
      && (!IsEntry(g, g.data, i) ==> twice == once)
      && (IsEntry(g, g.data, i) && Rematches(g, i, was) ==> twice == Descriptor(tt, was.toc, tt))
      && (IsEntry(g, g.data, i) && !Rematches(g, i, was) ==> twice == Descriptor(once.func, was.toc, tt))
      && (twice == once <==> !IsEntry(g, g.data, i) || Lo32(was.func) == Lo32(was.toc))
  {
    hide Opd, DecodeAt, Pack;
    var was := DescriptorAt(g, g.data, i);
    PassPacksEveryDescriptor(g, i);
    PassPacksEveryDescriptor(h, i);
    PackTwice(was.func, was.toc);
    assert Pack(was.func, was.toc) == Lo32(was.func) * TWO32 + Lo32(was.toc) by { PackIs(was.func, was.toc); }
  }

  lemma {:induction false} PackIs(func: u64, toc: u64)
    ensures Pack(func, toc) == Lo32(func) * TWO32 + Lo32(toc)
  {
  }
}
