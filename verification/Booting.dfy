/** Booting a patched program: the kernel takes code address and TOC from two
    32-bit loads at the entry. */
module Booting {
  import opened Bytes
  import opened Wrappers
  import opened Elf
  import opened Passes
  import opened ProgramHeaders
  import opened Locality
  import opened Independence
  import opened LoadImage
  import opened Descriptors
  import opened Loader
  import Assembly
  import opened Config
  import opened Linking
  import opened Linker
  import opened EndToEnd
  import Rerun
  import SecondRun
  import GF = GeneratedFile

  /** Bytes `at..at + 8` of the file are loaded at `v`. */
  ghost predicate LoadedFrom(phs: seq<Phdr>, v: nat, at: nat) {
    forall k: nat :: k < 8 ==> LoadedByteAt(phs, v, at, k)
  }

  ghost predicate LoadedByteAt(phs: seq<Phdr>, v: nat, at: nat, k: nat) {
    FileOffset(phs, v + k) == Some(at + k)
  }

  lemma {:induction false} ReadsFile(phs: seq<Phdr>, d: seq<byte>, v: nat, at: nat, k: nat)
    requires Loadable(phs, |d|) && LoadedFrom(phs, v, at) && at + 8 <= |d| && k + 4 <= 8
    ensures Read(Memory(phs, d), v + k, 4) == d[at + k..at + k + 4]
  {
    hide FileOffset, Memory, Loadable, Read;
    var r, w := Read(Memory(phs, d), v + k, 4), d[at + k..at + k + 4];
    forall i | 0 <= i < 4 ensures r[i] == w[i] {
      assert LoadedByteAt(phs, v, at, k + i);
      assert v + (k + i) == v + k + i;
      MemoryByte(phs, d, v + k + i);
    }
  }

  /** The words a kernel reads at `v`, and what they are to be: the low halves
      of the descriptor's code address and TOC, and so the addresses themselves
      exactly when both are below 2^32. */
  predicate BootWords(m: map<nat, byte>, v: nat, func: u64, toc: u64) {
    && Word(m, v) == Lo32(func) && Word(m, v + 4) == Lo32(toc)
    && (Word(m, v) == func && Word(m, v + 4) == toc <==> func < TWO32 && toc < TWO32)
  }

  /** Two 32-bit loads at an e_entry that lies on a loaded descriptor of the
      fully patched file find the original code address and TOC. */
  lemma {:induction false} EntryLoadsFindCodeAndToc(g: Image, order: seq<string>, i: nat)
    requires CanRunAll(g) && Known(g, order) && Disjoint(g, order) && NoWrap(g) && OpdFits(g)
    requires TableClearOfHeader(g) && |NewSlots(g)| < 0x1_0000 && Loadable(Table(g.data, g.phoff, g.phnum), |g.data|)
    requires i < OpdCount(g) && g.entry == g.sections[".opd"].addr + DESCRIPTOR_SIZE * i
    requires LoadedFrom(Table(g.data, g.phoff, g.phnum), g.entry, OpdBase(g) + DESCRIPTOR_SIZE * i)
    ensures Patchable(g)
    ensures var h := PatchAll(g, order);
      && g.phoff + PHENTSIZE * h.phnum <= |h.data| && h.phoff == g.phoff
        && Loadable(Table(h.data, h.phoff, h.phnum), |h.data|)
      && var was := DescriptorAt(g, g.data, i);
      BootWords(Memory(Table(h.data, h.phoff, h.phnum), h.data), g.entry, was.func, was.toc)
  {
    hide PatchAll, Patchable, NewSlots, Disjoint, Table, Memory, FileOffset, Opd, U32, U64, Read, NoWrap, Loadable,
      Pack;
    PatchingPreservesLoadImage(g, order);
    PatchedTable(g, order);
    Rerun.PatchedDescriptor(g, order, i);
    PassPacksEveryDescriptor(g, i);
    var h, v, at := PatchAll(g, order), g.entry, OpdBase(g) + DESCRIPTOR_SIZE * i;
    var after := Table(h.data, h.phoff, h.phnum);
    assert LoadedFrom(after, v, at) by { SameLoads(Table(g.data, g.phoff, g.phnum), after, v, at); }
    ReadsFile(after, h.data, v, at, 0);
    ReadsFile(after, h.data, v, at, 4);
    FieldHalves(h.data, at);
    PackIs(DescriptorAt(g, g.data, i).func, DescriptorAt(g, g.data, i).toc);
  }

  lemma {:induction false} SameLoads(phs: seq<Phdr>, after: seq<Phdr>, v: nat, at: nat)
    requires (forall x :: FileOffset(after, x) == FileOffset(phs, x)) && LoadedFrom(phs, v, at)
    ensures LoadedFrom(after, v, at)
  {
    hide FileOffset;
    forall k: nat | k < 8 ensures LoadedByteAt(after, v, at, k) { assert LoadedByteAt(phs, v, at, k); }
  }

  // ---------- linked programs ----------

  /** Every linked and patched program whose entry is a loaded descriptor boots. */
  lemma {:induction false} LinkedProgramBoots(c: Config, plan: Plan, prog: Program, order: seq<string>, i: nat,
      n: nat, func: u64, toc: u64)
    requires Generated(c) && Linker.Covers(GF.File(c), plan) && Compatible(GF.File(c), plan, prog)
    requires Enumerates(order, Output(GF.File(c), plan, prog).symbols)
    requires SecondRun.Boots(prog, i, n, func, toc) && Allocated(prog.secs[i])
    ensures Patchable(Output(GF.File(c), plan, prog)) && Known(Output(GF.File(c), plan, prog), order)
    ensures var h := PatchAll(Output(GF.File(c), plan, prog), order);
      && h.phoff + PHENTSIZE * h.phnum <= |h.data| && Loadable(Table(h.data, h.phoff, h.phnum), |h.data|)
      && BootWords(Memory(Table(h.data, h.phoff, h.phnum), h.data), prog.entry, func, toc)
  {
    hide GF.File, Output, Compatible, Linker.Covers, Generated, Enumerates, PatchAll, Patchable, Table, Memory,
      Loadable, BootWords, LinkedFile, Rerun.MetaUntouched, BeforeTable, OldTableFits, Allocated, Indexable,
      Parse, SecondRun.Boots, SecondRun.BootsFrom, LoadedFrom, Rerun.WellFormed;
    var o := GF.File(c);
    var g := Output(o, plan, prog);
    SecondRun.LinkedIsWellFormed(c, plan, prog, order);
    SecondRun.BootDescriptor(o, plan, prog, i, n, func, toc);
    SecondRun.OutputEntry(o, plan, prog);
    OutputHeader(o, plan, prog);
    SegmentsInFile(o, plan, prog);
    BootLoaded(o, plan, prog, i, n, func, toc);
    DescriptorBoots(g, order, n, func, toc);
  }

  lemma {:induction false} DescriptorBoots(g: Image, order: seq<string>, n: nat, func: u64, toc: u64)
    requires Rerun.WellFormed(g, order) && SecondRun.BootsFrom(g, n, func, toc)
    requires Loadable(BeforeTable(g), |g.data|)
    requires LoadedFrom(BeforeTable(g), g.entry, OpdBase(g) + DESCRIPTOR_SIZE * n)
    ensures Patchable(g) && Known(g, order)
    ensures var h := PatchAll(g, order);
      && h.phoff + PHENTSIZE * h.phnum <= |h.data| && Loadable(Table(h.data, h.phoff, h.phnum), |h.data|)
      && BootWords(Memory(Table(h.data, h.phoff, h.phnum), h.data), g.entry, func, toc)
  {
    hide PatchAll, Patchable, Table, Memory, Loadable, BootWords, Disjoint, NoWrap, NewSlots, DescriptorAt, IsEntry,
      LoadedFrom;
    EntryLoadsFindCodeAndToc(g, order, n);
  }

  /** The descriptor is loaded where the entry is. */
  lemma {:induction false} BootLoaded(o: Assembly.Object, plan: Plan, prog: Program, i: nat, n: nat,
      func: u64, toc: u64)
    requires Linker.Covers(o, plan) && Compatible(o, plan, prog) && SecondRun.Boots(prog, i, n, func, toc)
    requires Allocated(prog.secs[i])
    ensures var g := Output(o, plan, prog);
      && OldTableFits(g) && ".opd" in g.sections
      && LoadedFrom(BeforeTable(g), prog.entry, OpdBase(g) + DESCRIPTOR_SIZE * n)
  {
    hide Output, Secs, Spread, Skeleton, At, Link, U64, BeforeTable, FileOffset, Compatible, Linker.Covers;
    var k := |plan.names| + i;
    SecChoice(o, plan, prog, k);
    SectionInOutput(o, plan, prog, k);
    OutputHeader(o, plan, prog);
    var g := Output(o, plan, prog);
    var d := DESCRIPTOR_SIZE * n;
    var at := OpdBase(g) + d;
    forall j: nat | j < 8 ensures LoadedByteAt(BeforeTable(g), prog.entry, at, j) {
      LoadedByte(o, plan, prog, k, d + j);
    }
  }
}
