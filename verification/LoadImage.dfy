/** The memory image the PT_LOAD headers define, and what patching does to it. */
module LoadImage {
  import opened Bytes
  import opened Wrappers
  import opened Elf
  import opened Passes
  import opened ProgramHeaders
  import opened Locality
  import opened Independence
  import Descriptors

  predicate Loadable(phs: seq<Phdr>, len: nat) {
    forall p :: p in phs && p.kind == PT_LOAD ==> p.offset + p.filesz <= len
  }

  predicate Covers(p: Phdr, v: nat) {
    p.kind == PT_LOAD && p.vaddr <= v < p.vaddr + p.memsz
  }

  /** Where in the file the byte loaded at `v` comes from; the part of a
      segment beyond its file size is zero-filled. */
  function FileOffset(phs: seq<Phdr>, v: nat): Option<nat> {
    if phs == [] then None
    else
      var p := phs[|phs| - 1];
      if Covers(p, v) then (if v - p.vaddr < p.filesz then Some(p.offset + (v - p.vaddr)) else None)
      else FileOffset(phs[..|phs| - 1], v)
  }

  function Segment(p: Phdr, d: seq<byte>): (m: map<nat, byte>)
    requires p.kind == PT_LOAD ==> p.offset + p.filesz <= |d|
    ensures forall v :: v in m <==> Covers(p, v)
  {
    map v: nat | p.vaddr <= v < p.vaddr + p.memsz && Covers(p, v) ::
      if v - p.vaddr < p.filesz then d[p.offset + (v - p.vaddr)] else 0
  }

  /** Later segments are loaded over earlier ones. */
  function Memory(phs: seq<Phdr>, d: seq<byte>): map<nat, byte>
    requires Loadable(phs, |d|)
  {
    if phs == [] then map[]
    else Memory(phs[..|phs| - 1], d) + Segment(phs[|phs| - 1], d)
  }

  /** The loaded byte is the file byte, or zero. */
  lemma {:induction false} MemoryByte(phs: seq<Phdr>, d: seq<byte>, v: nat)
    requires Loadable(phs, |d|)
    ensures v in Memory(phs, d) <==> exists p :: p in phs && Covers(p, v)
    ensures FileOffset(phs, v).Some? ==> FileOffset(phs, v).value < |d| && v in Memory(phs, d)
    ensures v in Memory(phs, d) ==>
      Memory(phs, d)[v] == if FileOffset(phs, v).Some? then d[FileOffset(phs, v).value] else 0
  {
    if phs != [] {
      var init, p := phs[..|phs| - 1], phs[|phs| - 1];
      MemoryByte(init, d, v);
      assert phs == init + [p];
    }
  }

  /** Flags and non-PT_LOAD headers do not matter to loading. */
  lemma {:induction false} SonyTableLoads(phs: seq<Phdr>, extra: seq<Phdr>, v: nat)
    requires forall p :: p in extra ==> p.kind != PT_LOAD
    ensures FileOffset(SonyTable(phs) + extra, v) == FileOffset(phs, v)
    ensures (exists p :: p in SonyTable(phs) + extra && Covers(p, v)) <==> (exists p :: p in phs && Covers(p, v))
    decreases |extra|, |phs|
  {
    hide SonyFlags;
    var all := SonyTable(phs) + extra;
    if extra != [] {
      var init := extra[..|extra| - 1];
      assert extra == init + [extra[|extra| - 1]];
      assert all[..|all| - 1] == SonyTable(phs) + init;
      assert all == (SonyTable(phs) + init) + [extra[|extra| - 1]];
      assert extra[|extra| - 1] in extra;
      SonyTableLoads(phs, init, v);
    } else if phs != [] {
      var init, p := phs[..|phs| - 1], phs[|phs| - 1];
      SonyTableLoads(init, [], v);
      assert SonyTable(init) + [] == SonyTable(init) && SonyTable(phs) + [] == SonyTable(phs);
      assert phs == init + [p];
      if p.kind == PT_LOAD {
        var q := p.(flags := SonyFlags(p.flags));
        assert SonyTable(phs) == SonyTable(init) + [q];
        assert SonyTable(phs)[..|SonyTable(init)|] == SonyTable(init);
        assert Covers(q, v) == Covers(p, v);
      }
    }
  }

  lemma {:induction false} SonyTableLoadable(phs: seq<Phdr>, len: nat)
    requires Loadable(phs, len)
    ensures Loadable(SonyTable(phs), len)
  {
    hide SonyFlags;
    if phs != [] {
      var init, p := phs[..|phs| - 1], phs[|phs| - 1];
      assert phs == init + [p];
      SonyTableLoadable(init, len);
    }
  }

  // ---------- the fields the passes declare ----------

  /** The descriptor pass writes the data word of each descriptor, and the
      function word of an entry descriptor. */
  ghost predicate OpdField(g: Image, i: nat) {
    exists n: nat :: n < OpdDone(g) && OpdWord(g, n, i)
  }

  predicate OpdWord(g: Image, n: nat, i: nat)
    requires n < OpdDone(g)
  {
    var o := OpdBase(g) + DESCRIPTOR_SIZE * n;
    o + 16 <= i < o + 24 || (o <= i < o + 8 && Descriptors.IsEntry(g, g.data, n))
  }

  ghost predicate Field(g: Image, order: seq<string>, i: nat)
    requires CanRunAll(g) && Known(g, order)
  {
    || Region(FixOsAbi, g, order, i) || Region(FixPhdrs, g, order, i)
    || Region(FixStubs, g, order, i) || Region(FixPrxParams, g, order, i) || OpdField(g, i)
  }

  lemma {:induction false} OpdFieldFrame(g: Image, n: nat, i: nat)
    requires n <= OpdDone(g) && i < |g.data|
    requires n > 0 ==> ".opd" in g.sections
    requires forall k: nat :: k < n ==> !OpdWord(g, k, i)
    ensures OpdUpTo(g, n, g.data)[i] == g.data[i]
  {
    hide Fitting, OpdStep, U64, MatchesEntry;
    if n > 0 {
      var d := OpdUpTo(g, n - 1, g.data);
      OpdFieldFrame(g, n - 1, i);
      OpdUpToFrame(g, n - 1, g.data);
      Descriptors.SameDescriptor(g, g.data, d, n - 1);
      assert Descriptors.IsEntry(g, d, n - 1) == Descriptors.IsEntry(g, g.data, n - 1);
      assert !OpdWord(g, n - 1, i);
      StepFieldFrame(g, n - 1, d, i);
    }
  }

  lemma {:induction false} StepFieldFrame(g: Image, n: nat, d: seq<byte>, i: nat)
    requires ".opd" in g.sections && OpdBase(g) + DESCRIPTOR_SIZE * (n + 1) <= |d| && i < |d|
    requires var o := OpdBase(g) + DESCRIPTOR_SIZE * n;
      !(o + 16 <= i < o + 24 || (o <= i < o + 8 && Descriptors.IsEntry(g, d, n)))
    ensures OpdStep(g, n, d)[i] == d[i]
  {
    hide BE, U64;
  }

  /** No pass changes a byte outside the declared fields. */
  lemma {:induction false} FieldFrame(g: Image, order: seq<string>, i: nat)
    requires CanRunAll(g) && Known(g, order) && Disjoint(g, order) && NoWrap(g)
    requires i < |g.data| && !Field(g, order, i)
    ensures Patchable(g) && PatchAll(g, order).data[i] == g.data[i]
  {
    hide Region, Opd, Patchable, PatchAll;
    PipelineIsOnePatch(g, order);
    if Region(FixOpd, g, order, i) {
      assert FixOpd in PIPELINE;
      OpdRegionFrame(g, i);
      RunOpd(g, order);
    } else {
      assert forall p :: p in PIPELINE ==> !Region(p, g, order, i);
    }
  }

  lemma {:induction false} RunOpd(g: Image, order: seq<string>)
    requires Known(g, order)
    ensures Run(FixOpd, g, order) == Opd(g)
  {
  }

  lemma {:induction false} OpdRegionFrame(g: Image, i: nat)
    requires i < |g.data| && !OpdField(g, i)
    ensures Opd(g).data[i] == g.data[i]
  {
    hide OpdUpTo, OpdWord, Fitting;
    if OpdCount(g) > 0 { OpdFieldFrame(g, OpdDone(g), i); }
  }

  lemma {:induction false} TableLocal(d: seq<byte>, e: seq<byte>, phoff: nat, n: nat)
    requires phoff + PHENTSIZE * n <= |d| == |e|
    requires forall i :: phoff <= i < phoff + PHENTSIZE * n ==> d[i] == e[i]
    ensures Table(d, phoff, n) == Table(e, phoff, n)
  {
    hide Decode;
    if n > 0 {
      TableLocal(d, e, phoff, n - 1);
      assert SlotAt(d, phoff, n - 1) == SlotAt(e, phoff, n - 1);
    }
  }

  lemma {:induction false} PatchedPhdrs(g: Image, order: seq<string>)
    requires CanRunAll(g) && Known(g, order) && Disjoint(g, order) && NoWrap(g)
    ensures Patchable(g)
    ensures var h := PatchAll(g, order);
      && h == g.(data := h.data, phnum := NewPhnum(g)) && |h.data| == |g.data|
      && forall i :: 0 <= i < |g.data| && PhdrBytes(g, i) ==> h.data[i] == Phdrs(g).data[i]
  {
    hide PatchAll, Phdrs, NewPhnum, Patchable, Disjoint, OsAbi, LibStubs, Opd, PrxParams;
    assert Region(FixOsAbi, g, order, 7);
    PipelineAt(g, order, FixOsAbi, 7);
    forall i | 0 <= i < |g.data| && PhdrBytes(g, i) ensures PatchAll(g, order).data[i] == Phdrs(g).data[i] {
      assert Region(FixPhdrs, g, order, i);
      PipelineAt(g, order, FixPhdrs, i);
    }
  }

  /** The program header table of the patched image. */
  lemma {:induction false} PatchedTable(g: Image, order: seq<string>)
    requires CanRunAll(g) && Known(g, order) && Disjoint(g, order) && NoWrap(g)
    requires TableClearOfHeader(g) && |NewSlots(g)| < 0x1_0000
    ensures Patchable(g)
    ensures var h := PatchAll(g, order);
      && h == g.(data := h.data, phnum := |NewSlots(g)|) && |h.data| == |g.data|
      && g.phoff + PHENTSIZE * h.phnum <= |h.data|
      && Table(h.data, g.phoff, h.phnum) == SonyTable(Table(g.data, g.phoff, g.phnum)) + InjectedPhdrs(g.sections)
  {
    hide Phdrs, PatchAll, NewSlots, SonyTable, InjectedPhdrs, Table, Patchable, Disjoint, NoWrap;
    PatchedPhdrs(g, order);
    RewriteRefinesTable(g);
    var h := PatchAll(g, order);
    TableLocal(h.data, Phdrs(g).data, g.phoff, h.phnum);
  }

  /** The loaded image after all passes: the same addresses are loaded from the
      same file positions, and every byte is the original one unless its file
      position lies in a field the passes declare (a header or header-table
      byte included, when those are loaded themselves). */
  lemma {:induction false} PatchingPreservesLoadImage(g: Image, order: seq<string>)
    requires CanRunAll(g) && Known(g, order) && Disjoint(g, order) && NoWrap(g)
    requires TableClearOfHeader(g) && |NewSlots(g)| < 0x1_0000
    requires Loadable(Table(g.data, g.phoff, g.phnum), |g.data|)
    ensures Patchable(g)
    ensures var h, before := PatchAll(g, order), Table(g.data, g.phoff, g.phnum);
      && g.phoff + PHENTSIZE * h.phnum <= |h.data| == |g.data|
      && var after := Table(h.data, h.phoff, h.phnum);
      && Loadable(after, |h.data|)
      && Memory(after, h.data).Keys == Memory(before, g.data).Keys
      && (forall v :: FileOffset(after, v) == FileOffset(before, v))
      && (forall v :: v in Memory(before, g.data) ==>
            var at := FileOffset(before, v);
            && (at.Some? ==> at.value < |h.data| && Memory(after, h.data)[v] == h.data[at.value])
            && (at == None || !Field(g, order, at.value) ==> Memory(after, h.data)[v] == Memory(before, g.data)[v]))
  {
    hide PatchAll, NewSlots, SonyTable, InjectedPhdrs, Table, Patchable, Field, Memory, FileOffset, Covers;
    hide Region;
    PatchedTable(g, order);
    var h, before := PatchAll(g, order), Table(g.data, g.phoff, g.phnum);
    var after := Table(h.data, h.phoff, h.phnum);
    SonyTableLoadable(before, |g.data|);
    InjectedNotLoaded(g.sections);
    forall v: nat
      ensures v in Memory(after, h.data) <==> v in Memory(before, g.data)
      ensures FileOffset(after, v) == FileOffset(before, v)
      ensures v in Memory(before, g.data) ==>
            var at := FileOffset(before, v);
            && (at.Some? ==> at.value < |h.data| && Memory(after, h.data)[v] == h.data[at.value])
            && (at == None || !Field(g, order, at.value) ==> Memory(after, h.data)[v] == Memory(before, g.data)[v])
    {
      SonyTableLoads(before, InjectedPhdrs(g.sections), v);
      MemoryByte(before, g.data, v);
      MemoryByte(after, h.data, v);
      var at := FileOffset(before, v);
      if v in Memory(before, g.data) && at.Some? && !Field(g, order, at.value) {
        FieldFrame(g, order, at.value);
      }
    }
  }

  lemma {:induction false} InjectedNotLoaded(sections: map<string, Section>)
    ensures forall p :: p in InjectedPhdrs(sections) ==> p.kind != PT_LOAD
  {
  }
}
