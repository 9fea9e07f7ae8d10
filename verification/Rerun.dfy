/** Running the patcher on its own output. */
module Rerun {
  import opened Bytes
  import opened Wrappers
  import opened Lists
  import opened Elf
  import opened Passes
  import opened ProgramHeaders
  import opened Locality
  import opened Independence
  import opened LoadImage
  import opened Descriptors
  import B = Binding

  // ---------- parsing an image whose metadata bytes survived ----------

  predicate InSection(s: Section, i: nat) {
    s.offset <= i < s.offset + s.size
  }

  /** The bytes `new` reads, other than e_phnum. */
  predicate Meta(d: seq<byte>, i: nat)
    requires Indexable(d) && Parse(d).Ok?
  {
    var sections := Parse(d).value.sections;
    || (i < 64 && i != 7 && !(56 <= i < 58))
    || Shoff(d) <= i < Shoff(d) + 64 * Shnum(d)
    || InSection(AllShdrs(d)[Shstrndx(d)], i)
    || (".symtab" in sections && InSection(sections[".symtab"], i))
    || (".strtab" in sections && InSection(sections[".strtab"], i))
  }

  ghost predicate MetaSame(d: seq<byte>, e: seq<byte>)
    requires Indexable(d) && Parse(d).Ok?
  {
    |d| == |e| && forall i :: 0 <= i < |d| && Meta(d, i) ==> d[i] == e[i]
  }

  lemma {:induction false} ShdrsSame(d: seq<byte>, e: seq<byte>, shoff: nat, n: nat)
    requires n == 0 || shoff + 64 * n <= |d| == |e|
    requires forall i :: shoff <= i < shoff + 64 * n ==> d[i] == e[i]
    ensures Shdrs(d, shoff, n) == Shdrs(e, shoff, n)
  {
    hide DecodeShdr;
    if n > 0 {
      ShdrsSame(d, e, shoff, n - 1);
      assert d[shoff + 64 * (n - 1)..shoff + 64 * n] == e[shoff + 64 * (n - 1)..shoff + 64 * n];
    }
  }

  lemma {:induction false} ContentsSame(d: seq<byte>, e: seq<byte>, s: Section)
    requires SectionFits(d, s) && |d| == |e|
    requires forall i :: s.offset <= i < s.offset + s.size ==> d[i] == e[i]
    ensures Contents(d, s) == Contents(e, s)
  {
  }

  lemma {:induction false} HeaderSame(d: seq<byte>, e: seq<byte>)
    requires |d| == |e| && HeaderError(d) == None
    requires forall i :: 0 <= i < 64 && i != 7 && !(56 <= i < 58) ==> d[i] == e[i]
    ensures HeaderError(e) == None
    ensures Shoff(d) == Shoff(e) && Shnum(d) == Shnum(e) && Shstrndx(d) == Shstrndx(e)
    ensures U64(d[24..32]) == U64(e[24..32]) && U64(d[32..40]) == U64(e[32..40])
  {
    hide Val;
    assert d[0..4] == e[0..4] && d[18..20] == e[18..20] && d[58..60] == e[58..60];
    assert d[24..32] == e[24..32] && d[32..40] == e[32..40] && d[40..48] == e[40..48];
    assert d[60..62] == e[60..62] && d[62..64] == e[62..64];
  }

  lemma {:induction false} TablesSame(d: seq<byte>, e: seq<byte>)
    requires Indexable(d) && Parse(d).Ok? && MetaSame(d, e)
    ensures HeaderOk(e) && AllShdrs(e) == AllShdrs(d) && Shstrtab(e) == Shstrtab(d)
  {
    hide Shdrs, NamesInTable, SectionMap, U64, U16;
    HeaderSame(d, e);
    ShdrsSame(d, e, Shoff(d), Shnum(d));
    ContentsSame(d, e, AllShdrs(d)[Shstrndx(d)]);
  }

  /** A file that keeps those bytes parses to the same tables. */
  lemma {:induction false} ParseSame(d: seq<byte>, e: seq<byte>)
    requires Indexable(d) && Parse(d).Ok? && MetaSame(d, e)
    ensures Indexable(e) && Parse(e) == Ok(Parse(d).value.(data := e, phnum := U16(e[56..58])))
  {
    hide Shdrs, NamesInTable, SectionMap, U64, U16, SymbolMap, NumSyms, EntSize;
    TablesSame(d, e);
    HeaderSame(d, e);
    var sections := SectionMap(AllShdrs(d), Shstrtab(d));
    if HasSymtab(d, sections) {
      ContentsSame(d, e, sections[".symtab"]);
      ContentsSame(d, e, sections[".strtab"]);
    }
  }

  /** No declared field overlaps what the parser reads. */
  ghost predicate MetaUntouched(d: seq<byte>, order: seq<string>)
    requires Indexable(d) && Parse(d).Ok? && CanRunAll(Parse(d).value) && Known(Parse(d).value, order)
  {
    forall i: nat :: i < |d| && Meta(d, i) ==> !Field(Parse(d).value, order, i)
  }

  // ---------- the program header pass is idempotent ----------

  lemma {:induction false} FlagsIdempotent(f: u32)
    ensures SonyFlags(SonyFlags(f)) == SonyFlags(f)
  {
  }

  lemma {:induction false} ReflagIdempotent(s: Slot)
    ensures Reflag(Reflag(s)) == Reflag(s) && Reflag(s)[0..4] == s[0..4]
  {
    hide U32, BE, SonyFlags;
    var f := SonyFlags(U32(s[4..8]));
    FlagsIdempotent(U32(s[4..8]));
    FieldRoundTrip32(f);
    assert Reflag(s)[4..8] == BE(f, 4);
    assert Reflag(s)[..4] == s[..4] && Reflag(s)[8..] == s[8..];
  }

  function KeepLoads(slots: seq<Slot>): seq<Slot> {
    if slots == [] then []
    else
      var s := slots[|slots| - 1];
      KeepLoads(slots[..|slots| - 1]) + if U32(s[0..4]) == PT_LOAD then [Reflag(s)] else []
  }

  lemma {:induction false} KeptOfSlots(d: seq<byte>, phoff: nat, slots: seq<Slot>)
    requires phoff + PHENTSIZE * |slots| <= |d|
    requires forall i :: 0 <= i < |slots| ==> SlotAt(d, phoff, i) == slots[i]
    ensures Kept(d, phoff, |slots|) == KeepLoads(slots)
  {
    hide Reflag, SlotAt, U32;
    if slots != [] { KeptOfSlots(d, phoff, slots[..|slots| - 1]); }
  }

  /** Kept slots are kept unchanged, and the injected ones are dropped. */
  lemma {:induction false} KeptAgain(d: seq<byte>, phoff: nat, n: nat)
    requires phoff + PHENTSIZE * n <= |d|
    ensures KeepLoads(Kept(d, phoff, n)) == Kept(d, phoff, n)
  {
    hide Reflag, SlotAt, U32;
    if n > 0 {
      KeptAgain(d, phoff, n - 1);
      var s, init := SlotAt(d, phoff, n - 1), Kept(d, phoff, n - 1);
      if U32(s[0..4]) == PT_LOAD {
        ReflagIdempotent(s);
        assert (init + [Reflag(s)])[..|init|] == init;
      } else {
        assert Kept(d, phoff, n) == init + [] == init;
      }
    }
  }

  lemma {:induction false} DropInjected(slots: seq<Slot>, kind: u32, s: Section, minAlign: u64)
    requires kind != PT_LOAD
    ensures KeepLoads(slots + [ParamSlot(kind, s, minAlign)]) == KeepLoads(slots)
  {
    hide Decode, ParamSlot, Reflag;
    var all := slots + [ParamSlot(kind, s, minAlign)];
    assert all[..|slots|] == slots;
    ParamSlotDecodes(kind, s, minAlign);
    KindOf(ParamSlot(kind, s, minAlign));
    assert KeepLoads(slots) + [] == KeepLoads(slots);
  }

  lemma {:induction false} KindOf(s: Slot)
    ensures U32(s[0..4]) == Decode(s).kind
  {
  }

  lemma {:induction false} NewSlotsAgain(g: Image)
    requires OldTableFits(g)
    ensures KeepLoads(NewSlots(g)) == Kept(g.data, g.phoff, g.phnum)
  {
    hide ParamSlot, Kept, KeepLoads;
    var k := Kept(g.data, g.phoff, g.phnum);
    KeptAgain(g.data, g.phoff, g.phnum);
    var p: seq<Slot> := if ".sys_proc_param" in g.sections
      then [ParamSlot(PT_SCE_PROC_PARAM, g.sections[".sys_proc_param"], 8)] else [];
    var q: seq<Slot> := if ".sys_proc_prx_param" in g.sections
      then [ParamSlot(PT_SCE_PROC_PRX_PARAM, g.sections[".sys_proc_prx_param"], 4)] else [];
    assert k + [] == k && (k + p) + [] == k + p;
    if p != [] { DropInjected(k, PT_SCE_PROC_PARAM, g.sections[".sys_proc_param"], 8); }
    if q != [] { DropInjected(k + p, PT_SCE_PROC_PRX_PARAM, g.sections[".sys_proc_prx_param"], 4); }
    assert NewSlots(g) == (k + p) + q;
  }

  /** `h` is the patched image, as far as the program headers go. */
  lemma {:induction false} PhdrsAgain(g: Image, h: Image)
    requires |g.data| >= 64 && TableFits(g) && TableClearOfHeader(g) && |NewSlots(g)| < 0x1_0000
    requires h == g.(data := h.data, phnum := NewPhnum(g)) && |h.data| == |g.data|
    requires forall i :: 0 <= i < |g.data| && PhdrBytes(g, i) ==> h.data[i] == Phdrs(g).data[i]
    ensures TableFits(h) && NewSlots(h) == NewSlots(g)
    ensures forall i: nat :: PhdrBytes(h, i) ==> PhdrBytes(g, i)
    ensures Phdrs(h).data == h.data
  {
    hide Phdrs, Kept, Injected, KeepLoads, NewTable, Put, BE, U16;
    forall i | 0 <= i < |NewSlots(g)| ensures SlotAt(h.data, g.phoff, i) == NewSlots(g)[i] {
      NewSlotAt(g, i);
      assert SlotAt(h.data, g.phoff, i) == SlotAt(Phdrs(g).data, g.phoff, i);
    }
    KeptOfSlots(h.data, g.phoff, NewSlots(g));
    NewSlotsAgain(g);
    assert TableFits(h) && NewSlots(h) == NewSlots(g);
    PhdrBytesAgain(g, h);
  }

  lemma {:induction false} PhdrBytesAgain(g: Image, h: Image)
    requires |g.data| >= 64 && TableFits(g) && TableClearOfHeader(g) && |NewSlots(g)| < 0x1_0000
    requires h == g.(data := h.data, phnum := NewPhnum(g)) && |h.data| == |g.data|
    requires forall i :: 0 <= i < |g.data| && PhdrBytes(g, i) ==> h.data[i] == Phdrs(g).data[i]
    requires TableFits(h) && NewSlots(h) == NewSlots(g)
    ensures Phdrs(h).data == h.data
  {
    hide Kept, Injected, NewSlots, Flat, BE, U16;
    assert NewPhnum(h) == NewPhnum(g) && Slots(h) == |NewSlots(g)|;
    assert NewTable(h) == NewTable(g)[..PHENTSIZE * |NewSlots(g)|];
  }

  // ---------- the import header pass is idempotent ----------

  ghost predicate StubSpaced(g: Image, order: seq<string>)
    requires Known(g, order)
  {
    HasStubs(g) ==> B.Spaced(g.sections[LIB_STUB], |g.data|, StubHeaders(g, order))
  }

  ghost predicate StubByte(g: Image, order: seq<string>, i: nat)
    requires Known(g, order)
  {
    HasStubs(g) && StubField(g.sections[LIB_STUB], |g.data|, StubHeaders(g, order), i)
  }

  lemma {:induction false} StubsAgain(g: Image, h: Image, order: seq<string>, other: seq<string>, i: nat)
    requires Enumerates(order, g.symbols) && Enumerates(other, g.symbols) && StubSpaced(g, order)
    requires h == g.(data := h.data, phnum := h.phnum) && |h.data| == |g.data|
    requires forall k :: 0 <= k < |g.data| && StubByte(g, order, k) ==> h.data[k] == LibStubs(g, order).data[k]
    requires i < |g.data| && StubByte(g, order, i)
    ensures LibStubs(h, other).data[i] == h.data[i]
  {
    hide BindHeader, BindAll, StubHeaders, HeaderField;
    var s, len, hs := g.sections[LIB_STUB], |g.data|, StubHeaders(g, order);
    var hd :| hd in hs && Binds(s, len, hd) && HeaderField(HeaderOffset(s, hd), i);
    B.StubHeadersAre(g, order);
    B.StubHeadersAre(h, other);
    BoundTwice(g.symbols, s, hs, StubHeaders(h, other), g.data, h.data, hd, i);
  }

  lemma {:induction false} BoundTwice(symbols: map<string, u64>, s: Section, hs: seq<Header>, ks: seq<Header>,
      d: seq<byte>, e: seq<byte>, h: Header, i: nat)
    requires |d| == |e| && NoDup(hs) && NoDup(ks) && forall k :: k in hs <==> k in ks
    requires B.Spaced(s, |d|, hs) && h in hs && Binds(s, |d|, h) && HeaderField(HeaderOffset(s, h), i)
    requires forall k :: 0 <= k < |d| && StubField(s, |d|, hs, k) ==> e[k] == BindAll(symbols, s, hs, d)[k]
    ensures i < |d| && BindAll(symbols, s, ks, e)[i] == e[i]
  {
    hide BindHeader, BindAll;
    var off := HeaderOffset(s, h);
    var b := BindHeader(symbols, h.lib, off, d);
    forall k: nat | HeaderField(off, k) ensures e[k] == b[k] {
      B.BindAllAt(symbols, s, hs, d, h, k);
      assert StubField(s, |d|, hs, k);
    }
    assert HeaderField(off, off + 6) && HeaderField(off, off + 7) && HeaderField(off, i);
    assert e[off + 6..off + 8] == b[off + 6..off + 8];
    B.BindAllAt(symbols, s, ks, e, h, i);
    BindHeaderAgrees(symbols, h.lib, off, e, b);
    B.BindHeaderIdempotent(symbols, h.lib, off, d);
  }

  // ---------- the theorem ----------

  /** The bytes of entry descriptors. */
  ghost predicate EntryByte(g: Image, i: nat) {
    exists n: nat {:trigger EntryAt(g, n, i)} :: EntryAt(g, n, i)
  }

  predicate EntryAt(g: Image, n: nat, i: nat) {
    var o := OpdBase(g) + DESCRIPTOR_SIZE * n;
    n < OpdDone(g) && IsEntry(g, g.data, n) && o <= i < o + DESCRIPTOR_SIZE
  }

  /** What the first run asks of an image. */
  ghost predicate WellFormed(g: Image, order: seq<string>) {
    && CanRunAll(g) && Enumerates(order, g.symbols) && Disjoint(g, order) && NoWrap(g) && OpdFits(g)
    && TableClearOfHeader(g) && |NewSlots(g)| < 0x1_0000 && StubSpaced(g, order)
  }

  lemma {:induction false} RegionShrinks(g: Image, h: Image, order: seq<string>, other: seq<string>, p: Pass, i: nat)
    requires CanRunAll(g) && CanRunAll(h) && Enumerates(order, g.symbols) && Enumerates(other, g.symbols)
    requires h == g.(data := h.data, phnum := h.phnum) && |h.data| == |g.data|
    requires PhdrBytes(h, i) ==> PhdrBytes(g, i)
    requires Region(p, h, other, i)
    ensures Region(p, g, order, i)
  {
    hide PhdrBytes, StubHeaders, StubField, OpdByte;
    if p == FixStubs { StubRegionSame(g, h, order, other, i); }
    if p == FixOpd { OpdByteSame(g, h, i); }
  }

  /** The patched image is again one the patcher accepts. */
  lemma {:induction false} PatchedIsWellFormed(g: Image, order: seq<string>, other: seq<string>)
    requires WellFormed(g, order) && Enumerates(other, g.symbols)
    ensures Patchable(g)
    ensures var h := PatchAll(g, order);
      && h == g.(data := h.data, phnum := NewPhnum(g)) && |h.data| == |g.data|
      && CanRunAll(h) && Known(h, other) && Disjoint(h, other) && NoWrap(h) && Patchable(h)
      && NewSlots(h) == NewSlots(g) && Phdrs(h).data == h.data
      && (forall p: Pass, i: nat :: Region(p, h, other, i) ==> Region(p, g, order, i))
  {
    hide PatchAll, Phdrs, NewSlots, StubHeaders, PhdrBytes, Patchable, Region;
    PatchedPhdrs(g, order);
    var h := PatchAll(g, order);
    PhdrsAgain(g, h);
    forall p: Pass, i: nat | Region(p, h, other, i) ensures Region(p, g, order, i) {
      RegionShrinks(g, h, order, other, p, i);
    }
    PipelineIsOnePatch(h, other);
  }

  lemma {:induction false} StubRegionSame(g: Image, h: Image, order: seq<string>, other: seq<string>, i: nat)
    requires Enumerates(order, g.symbols) && Enumerates(other, g.symbols)
    requires h == g.(data := h.data, phnum := h.phnum) && |h.data| == |g.data|
    ensures StubByte(h, other, i) == StubByte(g, order, i)
  {
    hide StubHeaders, HeaderField;
    B.StubHeadersAre(g, order);
    B.StubHeadersAre(h, other);
  }

  lemma {:induction false} OpdByteSame(g: Image, h: Image, i: nat)
    requires h == g.(data := h.data, phnum := h.phnum) && |h.data| == |g.data|
    ensures OpdByte(h, i) == OpdByte(g, i)
  {
    hide Fitting;
  }

  /** Outside `.opd` the second run rewrites every byte to itself. */
  lemma {:induction false} SecondRunKeeps(g: Image, h: Image, order: seq<string>, other: seq<string>, p: Pass, i: nat)
    requires WellFormed(g, order) && Enumerates(other, g.symbols) && Patchable(g) && h == PatchAll(g, order)
    requires CanRunAll(h) && Known(h, other) && Phdrs(h).data == h.data
    requires h == g.(data := h.data, phnum := h.phnum) && |h.data| == |g.data|
    requires i < |g.data| && p != FixOpd && Region(p, h, other, i) && Region(p, g, order, i)
    ensures Run(p, h, other).data[i] == h.data[i]
  {
    hide PatchAll, StubHeaders, StubField, Phdrs, PhdrBytes, LibStubs, Disjoint, Patchable, NewSlots, PrxBounds;
    PipelineAt(g, order, p, i);
    if p == FixStubs {
      forall k | 0 <= k < |g.data| && StubByte(g, order, k) ensures h.data[k] == LibStubs(g, order).data[k] {
        assert Region(FixStubs, g, order, k);
        PipelineAt(g, order, FixStubs, k);
      }
      StubsAgain(g, h, order, other, i);
    }
  }

  /** A second run changes descriptors only. */
  lemma {:induction false} SecondRunBytes(g: Image, order: seq<string>, other: seq<string>, i: nat)
    requires WellFormed(g, order) && Enumerates(other, g.symbols) && i < |g.data|
    ensures Patchable(g) && Patchable(PatchAll(g, order)) && Known(PatchAll(g, order), other)
    ensures var h := PatchAll(g, order); var h2 := PatchAll(h, other);
      h2.data[i] == if OpdByte(g, i) then Opd(h).data[i] else h.data[i]
  {
    hide PatchAll, Phdrs, NewSlots, StubHeaders, PhdrBytes, Patchable, Opd, Region, OpdByte;
    PatchedIsWellFormed(g, order, other);
    var h := PatchAll(g, order);
    PipelineIsOnePatch(h, other);
    OpdByteSame(g, h, i);
    RegionOpd(h, other, i);
    if p: Pass :| Region(p, h, other, i) {
      PipelineAt(h, other, p, i);
      if p == FixOpd {
        RunOpd(h, other);
      } else {
        SecondRunKeeps(g, h, order, other, p, i);
        assert !Region(FixOpd, h, other, i);
      }
    } else {
      UnownedByte(h, other, i);
    }
  }

  lemma {:induction false} RegionOpd(g: Image, order: seq<string>, i: nat)
    requires Known(g, order)
    ensures Region(FixOpd, g, order, i) == OpdByte(g, i)
  {
  }

  lemma {:induction false} UnownedByte(g: Image, order: seq<string>, i: nat)
    requires CanRunAll(g) && Known(g, order) && Disjoint(g, order) && NoWrap(g) && i < |g.data|
    requires forall p: Pass :: !Region(p, g, order, i)
    ensures Patchable(g) && PatchAll(g, order).data[i] == g.data[i]
  {
    hide PatchAll, Patchable, Region;
    PipelineIsOnePatch(g, order);
  }

  /** The patched file parses to the patched image. */
  lemma {:induction false} PatchedParses(d: seq<byte>, order: seq<string>)
    requires Indexable(d) && Parse(d).Ok? && WellFormed(Parse(d).value, order) && MetaUntouched(d, order)
    ensures var g := Parse(d).value;
      && Patchable(g)
      && Indexable(PatchAll(g, order).data) && Parse(PatchAll(g, order).data) == Ok(PatchAll(g, order))
  {
    hide Indexable, Parse, PatchAll, Patchable, Field, Meta, Disjoint, Phdrs, NewSlots, NoWrap, SlotAt, Table,
      SonyTable, InjectedPhdrs, U16, Zeros;
    var g := Parse(d).value;
    ParsedData(d);
    PatchedPhdrs(g, order);
    var h := PatchAll(g, order);
    forall i | 0 <= i < |d| && Meta(d, i) ensures h.data[i] == d[i] {
      FieldFrame(g, order, i);
    }
    ParseSame(d, h.data);
    RewriteRefinesTable(g);
    assert PhdrBytes(g, 56) && PhdrBytes(g, 57);
    assert h.data[56..58] == Phdrs(g).data[56..58];
  }

  lemma {:induction false} ParsedData(d: seq<byte>)
    requires Indexable(d) && Parse(d).Ok?
    ensures Parse(d).value.data == d
  {
  }

  /** The descriptors of the patched image are those the descriptor pass makes. */
  lemma {:induction false} PatchedDescriptor(g: Image, order: seq<string>, n: nat)
    requires CanRunAll(g) && Known(g, order) && Disjoint(g, order) && NoWrap(g) && OpdFits(g) && n < OpdCount(g)
    ensures Patchable(g) && |PatchAll(g, order).data| == |g.data|
    ensures DescriptorAt(g, PatchAll(g, order).data, n) == DescriptorAt(g, Opd(g).data, n)
  {
    hide PatchAll, Opd, Patchable, Disjoint, NoWrap, DescriptorAt, Region;
    var o := OpdBase(g) + DESCRIPTOR_SIZE * n;
    forall i | o <= i < o + DESCRIPTOR_SIZE ensures Patchable(g) && |PatchAll(g, order).data| == |g.data| && PatchAll(g, order).data[i] == Opd(g).data[i] {
      RegionOpd(g, order, i);
      PipelineAt(g, order, FixOpd, i);
      RunOpd(g, order);
    }
    PipelineIsOnePatch(g, order);
    assert Patchable(g) && |PatchAll(g, order).data| == |g.data|;
    SameDescriptor(g, PatchAll(g, order).data, Opd(g).data, n);
  }

  /** Where a descriptor ends up after a first and a second whole run. */
  lemma {:induction false} SecondRunDescriptor(g: Image, order: seq<string>, other: seq<string>, n: nat)
    requires WellFormed(g, order) && Enumerates(other, g.symbols) && n < OpdCount(g)
    ensures Patchable(g) && Patchable(PatchAll(g, order)) && Known(PatchAll(g, order), other)
    ensures var h := PatchAll(g, order); var h2 := PatchAll(h, other);
      && |h.data| == |h2.data| == |g.data|
      && var was, once, twice := DescriptorAt(g, g.data, n), DescriptorAt(g, h.data, n), DescriptorAt(g, h2.data, n);
      var tt := Lo32(was.toc) * TWO32 + Lo32(was.toc);
      && (!IsEntry(g, g.data, n) ==> twice == once)
      && (IsEntry(g, g.data, n) && Rematches(g, n, was) ==> twice == Descriptor(tt, was.toc, tt))
      && (IsEntry(g, g.data, n) && !Rematches(g, n, was) ==> twice == Descriptor(once.func, was.toc, tt))
      && (twice == once <==> !IsEntry(g, g.data, n) || Lo32(was.func) == Lo32(was.toc))
  {
    hide PatchAll, Opd, Patchable, Disjoint, NoWrap, DescriptorAt, Region, Phdrs, NewSlots, StubHeaders, IsEntry;
    PatchedIsWellFormed(g, order, other);
    var h := PatchAll(g, order);
    PatchedDescriptor(g, order, n);
    PatchedDescriptor(h, other, n);
    assert forall d: seq<byte> :: OpdBase(g) + DESCRIPTOR_SIZE * (n + 1) <= |d| ==> DescriptorAt(g, d, n) == DescriptorAt(h, d, n) by {
      DescriptorMeta(g, h, n);
    }
    SecondPass(g, h, n);
  }

  lemma {:induction false} DescriptorMeta(g: Image, h: Image, n: nat)
    requires g.sections == h.sections
    ensures forall d: seq<byte> :: OpdBase(g) + DESCRIPTOR_SIZE * (n + 1) <= |d| ==> DescriptorAt(g, d, n) == DescriptorAt(h, d, n)
  {
  }

  /** The exact re-run theorem. Parsing and patching an already patched file
      succeeds and changes no byte outside entry descriptors; each descriptor
      ends as `SecondRunDescriptor` says; and the second run is the identity
      exactly when no entry descriptor has differing code and TOC halves. */
  lemma {:induction false} RerunChangesOnlyEntryDescriptors(d: seq<byte>, order: seq<string>, other: seq<string>)
    requires Indexable(d) && Parse(d).Ok? && WellFormed(Parse(d).value, order) && MetaUntouched(d, order)
    requires Enumerates(other, Parse(d).value.symbols)
    ensures var g := Parse(d).value;
      && Patchable(g) && PatchFile(d, order).Ok?
      && var once := PatchFile(d, order).value;
      && Indexable(once) && Parse(once) == Ok(g.(data := once, phnum := NewPhnum(g)))
      && Patchable(Parse(once).value) && PatchFile(once, other).Ok?
      && var twice := PatchFile(once, other).value;
      && |twice| == |once| == |d|
      && (forall i :: 0 <= i < |d| && !EntryByte(g, i) ==> twice[i] == once[i])
      && (twice == once <==> forall n :: 0 <= n < OpdCount(g) && IsEntry(g, d, n) ==>
            Lo32(DescriptorAt(g, d, n).func) == Lo32(DescriptorAt(g, d, n).toc))
  {
    hide PatchAll, Patchable, Indexable, Parse, Disjoint, NoWrap, Region, Phdrs, NewSlots, StubHeaders, IsEntry,
      EntryByte, DescriptorAt, OpdByte, MetaUntouched;
    var g := Parse(d).value;
    ParsedData(d);
    PatchedParses(d, order);
    PatchedIsWellFormed(g, order, other);
    var h := PatchAll(g, order);
    var h2 := PatchAll(h, other);
    assert OpdFits(h);
    PipelineIsOnePatch(h, other);
    assert |h2.data| == |h.data|;
    forall i | 0 <= i < |d| && !EntryByte(g, i) ensures h2.data[i] == h.data[i] {
      SecondRunBytes(g, order, other, i);
      if OpdByte(g, i) { NonEntryByte(g, order, other, i); }
    }
    WholeRunFixed(g, order, other);
  }

  lemma {:induction false} NonEntryByte(g: Image, order: seq<string>, other: seq<string>, i: nat)
    requires WellFormed(g, order) && Enumerates(other, g.symbols) && OpdByte(g, i) && !EntryByte(g, i)
    ensures i < |g.data| && Patchable(g) && Patchable(PatchAll(g, order)) && Known(PatchAll(g, order), other)
    ensures PatchAll(PatchAll(g, order), other).data[i] == PatchAll(g, order).data[i]
  {
    hide PatchAll, Patchable, Disjoint, NoWrap, IsEntry, DescriptorAt, NewSlots, TableClearOfHeader, StubSpaced;
    var n := (i - OpdBase(g)) / DESCRIPTOR_SIZE;
    assert n < OpdDone(g) == OpdCount(g);
    assert !EntryAt(g, n, i);
    SecondRunDescriptor(g, order, other, n);
    var h := PatchAll(g, order);
    DescriptorBytes(g, PatchAll(h, other).data, h.data, n, i);
  }

  /** Equal descriptors have equal bytes. */
  lemma {:induction false} DescriptorBytes(g: Image, d: seq<byte>, e: seq<byte>, n: nat, i: nat)
    requires |d| == |e| && OpdBase(g) + DESCRIPTOR_SIZE * (n + 1) <= |d|
    requires DescriptorAt(g, d, n) == DescriptorAt(g, e, n)
    requires OpdBase(g) + DESCRIPTOR_SIZE * n <= i < OpdBase(g) + DESCRIPTOR_SIZE * (n + 1)
    ensures d[i] == e[i]
  {
    hide Val, BE;
    var o := OpdBase(g) + DESCRIPTOR_SIZE * n;
    BEVal(d[o..o + 8]); BEVal(e[o..o + 8]);
    BEVal(d[o + 8..o + 16]); BEVal(e[o + 8..o + 16]);
    BEVal(d[o + 16..o + 24]); BEVal(e[o + 16..o + 24]);
    assert d[o..o + 24] == d[o..o + 8] + d[o + 8..o + 16] + d[o + 16..o + 24];
    assert e[o..o + 24] == e[o..o + 8] + e[o + 8..o + 16] + e[o + 16..o + 24];
    assert d[o..o + 24][i - o] == e[o..o + 24][i - o];
  }

  lemma {:induction false} WholeRunFixed(g: Image, order: seq<string>, other: seq<string>)
    requires WellFormed(g, order) && Enumerates(other, g.symbols)
    ensures Patchable(g) && Patchable(PatchAll(g, order)) && Known(PatchAll(g, order), other)
    ensures var h := PatchAll(g, order); var h2 := PatchAll(h, other);
      h2.data == h.data <==> forall n :: 0 <= n < OpdCount(g) && IsEntry(g, g.data, n) ==>
            Lo32(DescriptorAt(g, g.data, n).func) == Lo32(DescriptorAt(g, g.data, n).toc)
  {
    hide PatchAll, Patchable, Disjoint, NoWrap, TableClearOfHeader, StubSpaced, CanRunAll, NewSlots, IsEntry,
      DescriptorAt, Opd;
    SecondRunShape(g, order, other);
    var h := PatchAll(g, order);
    var h2 := PatchAll(h, other);
    forall i | 0 <= i < |g.data| && !OpdByte(g, i) ensures h2.data[i] == h.data[i] {
      SecondRunBytes(g, order, other, i);
    }
    DescriptorsDecide(g, h2.data, h.data);
    forall n: nat | n < OpdCount(g)
      ensures (DescriptorAt(g, h2.data, n) == DescriptorAt(g, h.data, n)) <==>
        (IsEntry(g, g.data, n) ==> Lo32(DescriptorAt(g, g.data, n).func) == Lo32(DescriptorAt(g, g.data, n).toc))
    {
      SecondRunDescriptor(g, order, other, n);
    }
  }

  lemma {:induction false} SecondRunShape(g: Image, order: seq<string>, other: seq<string>)
    requires WellFormed(g, order) && Enumerates(other, g.symbols)
    ensures OpdFits(g) && Patchable(g) && Patchable(PatchAll(g, order)) && Known(PatchAll(g, order), other)
    ensures |PatchAll(g, order).data| == |PatchAll(PatchAll(g, order), other).data| == |g.data|
  {
    hide PatchAll, Patchable, Disjoint, NoWrap, Phdrs, NewSlots, Region;
    PatchedIsWellFormed(g, order, other);
    PipelineIsOnePatch(PatchAll(g, order), other);
  }

  /** Buffers that agree outside `.opd` are equal exactly when their
      descriptors are. */
  lemma {:induction false} DescriptorsDecide(g: Image, d: seq<byte>, e: seq<byte>)
    requires OpdFits(g) && |d| == |e| == |g.data|
    requires forall i :: 0 <= i < |d| && !OpdByte(g, i) ==> d[i] == e[i]
    ensures d == e <==> forall n :: 0 <= n < OpdCount(g) ==> DescriptorAt(g, d, n) == DescriptorAt(g, e, n)
  {
    hide DescriptorAt;
    if forall n :: 0 <= n < OpdCount(g) ==> DescriptorAt(g, d, n) == DescriptorAt(g, e, n) {
      forall i | 0 <= i < |d| && OpdByte(g, i) ensures d[i] == e[i] {
        DescriptorBytes(g, d, e, (i - OpdBase(g)) / DESCRIPTOR_SIZE, i);
      }
    }
  }
}
