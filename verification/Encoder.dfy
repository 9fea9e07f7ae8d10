/** A specification-level ELF64 writer: header, program headers, section
    contents, section headers (System V gABI chapter 4). `ElfPatcher::new`
    reads back exactly what it was given. */
module Encoder {
  import opened Bytes
  import opened Elf
  import P = ProgramHeaders

  datatype SecSpec = SecSpec(
    name: string, shType: u32, flags: u64, addr: u64, pad: nat, content: seq<byte>, size: u64,
    link: u32, info: u32, addralign: u64, entsize: u64)

  datatype SymSpec = SymSpec(name: string, info: byte, other: byte, shndx: u16, value: u64, size: u64)

  datatype ElfSpec = ElfSpec(
    osabi: byte, entry: u64, eflags: u32, phdrs: seq<P.Phdr>, secs: seq<SecSpec>, syms: seq<SymSpec>)

  // ---------- string tables ----------

  /** Names are made of ASCII characters other than NUL. */
  predicate Plain(s: string) {
    forall i :: 0 <= i < |s| ==> 0 < s[i] as int < 128
  }

  function Ascii(s: string): (bs: seq<byte>)
    requires Plain(s)
    ensures |bs| == |s| && Text(bs) == s && 0 !in bs
  {
    var bs: seq<byte> := seq(|s|, i requires 0 <= i < |s| => s[i] as int);
    assert Text(bs) == s;
    bs
  }

  predicate AllPlain(names: seq<string>) {
    forall i :: 0 <= i < |names| ==> Plain(names[i])
  }

  function NameChunks(names: seq<string>): (r: seq<seq<byte>>)
    requires AllPlain(names)
    ensures |r| == |names|
  {
    seq(|names|, i requires 0 <= i < |names| => Ascii(names[i]) + [0])
  }

  function StrTab(names: seq<string>): seq<byte>
    requires AllPlain(names)
  {
    [0] + Concat(NameChunks(names))
  }

  function NameIndex(names: seq<string>, i: nat): nat
    requires AllPlain(names) && i < |names|
  {
    1 + ChunkStart(NameChunks(names), i)
  }

  lemma {:induction false} CStringStops(a: seq<byte>, rest: seq<byte>)
    requires 0 !in a
    ensures CString(a + [0] + rest) == a
  {
    var s := a + [0] + rest;
    if a != [] {
      assert s[1..] == a[1..] + [0] + rest;
      CStringStops(a[1..], rest);
    }
  }

  lemma {:induction false} NameReadsBack(names: seq<string>, i: nat)
    requires AllPlain(names) && i < |names|
    ensures NameIndex(names, i) < |StrTab(names)| && NameAt(StrTab(names), NameIndex(names, i)) == names[i]
  {
    hide Concat, CString;
    var chunks, tab, at := NameChunks(names), StrTab(names), NameIndex(names, i);
    ConcatAt(chunks, i);
    var stop := ChunkStart(chunks, i + 1);
    assert tab[at..] == Concat(chunks)[at - 1..stop] + Concat(chunks)[stop..];
    assert tab[at..] == Ascii(names[i]) + [0] + Concat(chunks)[stop..];
    CStringStops(Ascii(names[i]), Concat(chunks)[stop..]);
  }

  lemma {:induction false} StrTabBound(names: seq<string>)
    requires AllPlain(names) && forall i :: 0 <= i < |names| ==> |names[i]| < 0x3FF
    ensures |StrTab(names)| <= 1 + 0x3FF * |names|
  {
    hide Concat;
    ConcatBound(NameChunks(names), 0x3FF);
  }

  // ---------- layout ----------

  const NULL_SECTION := SecSpec("", 0, 0, 0, 0, [], 0, 0, 0, 0, 0)
  const NULL_SYMBOL := SymSpec("", 0, 0, 0, 0, 0)

  function AllSyms(f: ElfSpec): seq<SymSpec> { [NULL_SYMBOL] + f.syms }

  function SymNames(f: ElfSpec): (r: seq<string>)
    ensures |r| == |AllSyms(f)|
  {
    seq(|AllSyms(f)|, i requires 0 <= i < |AllSyms(f)| => AllSyms(f)[i].name)
  }

  /** The names of all sections, the writer's own three included. */
  function SecNames(f: ElfSpec): seq<string> {
    [""] + seq(|f.secs|, i requires 0 <= i < |f.secs| => f.secs[i].name) + [".symtab", ".strtab", ".shstrtab"]
  }

  predicate NamesPlain(f: ElfSpec) {
    AllPlain(SymNames(f)) && AllPlain(SecNames(f))
  }

  function SymChunk(f: ElfSpec, i: nat): (r: seq<byte>)
    requires NamesPlain(f) && i < |AllSyms(f)|
    ensures |r| == 24
  {
    var s := AllSyms(f)[i];
    BE(NameIndex(SymNames(f), i), 4) + [s.info, s.other] + BE(s.shndx, 2) + BE(s.value, 8) + BE(s.size, 8)
  }

  function SymChunks(f: ElfSpec): (r: seq<seq<byte>>)
    requires NamesPlain(f)
    ensures |r| == |AllSyms(f)|
  {
    seq(|AllSyms(f)|, i requires 0 <= i < |AllSyms(f)| => SymChunk(f, i))
  }

  function SymTab(f: ElfSpec): seq<byte>
    requires NamesPlain(f)
  {
    Concat(SymChunks(f))
  }

  lemma {:induction false} SymTabSize(f: ElfSpec)
    requires NamesPlain(f)
    ensures |SymTab(f)| == 24 * (|f.syms| + 1)
  {
    hide Concat, SymChunk;
    var cs := SymChunks(f);
    ConcatFixed(cs, 24, |cs|);
    assert cs[..|cs|] == cs;
  }

  /** The writer's own tables have a size that fits its field. */
  predicate TablesFit(f: ElfSpec) {
    NamesPlain(f) && |SymTab(f)| < TWO32 && |StrTab(SymNames(f))| < TWO32 && |StrTab(SecNames(f))| < TWO32
  }

  function AllSecs(f: ElfSpec): (r: seq<SecSpec>)
    requires TablesFit(f)
    ensures |r| == |SecNames(f)| == |f.secs| + 4
    ensures forall i :: 0 <= i < |r| ==> r[i].name == SecNames(f)[i]
  {
    [NULL_SECTION] + f.secs
    + [SecSpec(".symtab", 2, 0, 0, 0, SymTab(f), |SymTab(f)|, |f.secs| % TWO32, 1, 8, 24),
       SecSpec(".strtab", 3, 0, 0, 0, StrTab(SymNames(f)), |StrTab(SymNames(f))|, 0, 0, 1, 0),
       SecSpec(".shstrtab", 3, 0, 0, 0, StrTab(SecNames(f)), |StrTab(SecNames(f))|, 0, 0, 1, 0)]
  }

  function Chunks(f: ElfSpec): (r: seq<seq<byte>>)
    requires TablesFit(f)
    ensures |r| == |AllSecs(f)|
  {
    seq(|AllSecs(f)|, i requires 0 <= i < |AllSecs(f)| => Zeros(AllSecs(f)[i].pad) + AllSecs(f)[i].content)
  }

  function PhdrChunks(f: ElfSpec): seq<seq<byte>> {
    seq(|f.phdrs|, i requires 0 <= i < |f.phdrs| => P.Encode(f.phdrs[i]))
  }

  function BodyStart(f: ElfSpec): nat { 64 + 56 * |f.phdrs| }

  /** The file offset of the contents of section `i`. */
  function ContentOffset(f: ElfSpec, i: nat): nat
    requires TablesFit(f) && i < |AllSecs(f)|
  {
    BodyStart(f) + ChunkStart(Chunks(f), i) + AllSecs(f)[i].pad
  }

  function ShdrOffset(f: ElfSpec): nat
    requires TablesFit(f)
  {
    BodyStart(f) + |Concat(Chunks(f))|
  }

  /** What fits the ELF64 field widths. */
  predicate Encodable(f: ElfSpec) {
    && TablesFit(f)
    && |f.phdrs| < 0x1_0000 && |f.secs| + 4 < 0x1_0000
    && ShdrOffset(f) + 64 * (|f.secs| + 4) < TWO32
  }

  /** The section header the parser is to find for section `i`. */
  function SectionOf(f: ElfSpec, i: nat): Section
    requires Encodable(f) && i < |AllSecs(f)|
  {
    var s := AllSecs(f)[i];
    OffsetFits(f, i);
    NameReadsBack(SecNames(f), i);
    Section(NameIndex(SecNames(f), i), s.name, s.shType, s.flags, s.addr, ContentOffset(f, i), s.size,
            s.link, s.info, s.addralign, s.entsize)
  }

  lemma {:induction false} OffsetFits(f: ElfSpec, i: nat)
    requires TablesFit(f) && i < |AllSecs(f)|
    ensures ContentOffset(f, i) + |AllSecs(f)[i].content| <= ShdrOffset(f)
  {
    hide SymTab, StrTab, Concat;
    ConcatAt(Chunks(f), i);
  }

  function ShdrChunk(s: Section): (r: seq<byte>)
    ensures |r| == 64
  {
    BE(s.nameIdx, 4) + BE(s.shType, 4) + BE(s.flags, 8) + BE(s.addr, 8) + BE(s.offset, 8)
      + BE(s.size, 8) + BE(s.link, 4) + BE(s.info, 4) + BE(s.addralign, 8) + BE(s.entsize, 8)
  }

  function ShdrChunks(f: ElfSpec): (r: seq<seq<byte>>)
    requires Encodable(f)
    ensures |r| == |AllSecs(f)| && forall i :: 0 <= i < |r| ==> |r[i]| == 64
  {
    seq(|AllSecs(f)|, i requires 0 <= i < |AllSecs(f)| => ShdrChunk(SectionOf(f, i)))
  }

  function FileHeader(f: ElfSpec): (r: seq<byte>)
    requires Encodable(f)
    ensures |r| == 64
  {
    ELF_MAGIC + [2, 2, 1, f.osabi] + Zeros(8) + BE(2, 2) + BE(EM_PPC64, 2) + BE(1, 4)
      + BE(f.entry, 8) + BE(64, 8) + BE(ShdrOffset(f), 8) + BE(f.eflags, 4) + BE(64, 2)
      + BE(56, 2) + BE(|f.phdrs|, 2) + BE(64, 2) + BE(|AllSecs(f)|, 2) + BE(|AllSecs(f)| - 1, 2)
  }

  function Encode(f: ElfSpec): (d: seq<byte>)
    requires Encodable(f)
    ensures |d| >= 64
  {
    FileHeader(f) + Concat(PhdrChunks(f)) + Concat(Chunks(f)) + Concat(ShdrChunks(f))
  }
}
