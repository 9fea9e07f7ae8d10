/** What `ElfPatcher::new` reads out of a big-endian ELF64 file
    (System V gABI chapter 4): the header fields, the section headers by
    name and the symbol values by name. */
module Elf {
  import opened Bytes
  import opened Wrappers

  const ELF_MAGIC: seq<byte> := [0x7f, 0x45, 0x4c, 0x46]
  const ELFCLASS64: byte := 2
  const ELFDATA2MSB: byte := 2
  const EM_PPC64: u16 := 21

  datatype Section = Section(
    nameIdx: u32, name: string, shType: u32, flags: u64, addr: u64, offset: u64,
    size: u64, link: u32, info: u32, addralign: u64, entsize: u64)

  /** The value of an `ElfPatcher`. */
  datatype Image = Image(
    data: seq<byte>, entry: u64, phoff: u64, shoff: u64, phnum: u16, shnum: u16, shstrndx: u16,
    sections: map<string, Section>, symbols: map<string, u64>)

  // ---------- names ----------

  function Text(bs: seq<byte>): (s: string)
    ensures |s| == |bs| && forall i :: 0 <= i < |s| ==> s[i] == bs[i] as char
  {
    seq(|bs|, i requires 0 <= i < |bs| => bs[i] as char)
  }

  /** The bytes before the first NUL, or all of them. */
  function CString(s: seq<byte>): (r: seq<byte>)
    ensures |r| <= |s| && r == s[..|r|] && 0 !in r
    ensures |r| < |s| ==> s[|r|] == 0
  {
    if s == [] || s[0] == 0 then [] else [s[0]] + CString(s[1..])
  }

  function NameAt(table: seq<byte>, idx: nat): string
    requires idx <= |table|
  {
    Text(CString(table[idx..]))
  }

  // ---------- header and tables ----------

  function HeaderError(d: seq<byte>): Option<string> {
    if |d| < 64 then Some("File too small to be a valid ELF64 header")
    else if d[0..4] != ELF_MAGIC then Some("Invalid ELF magic")
    else if d[4] != ELFCLASS64 then Some("Not a 64-bit ELF file")
    else if d[5] != ELFDATA2MSB then Some("Not a Big-Endian (MSB) ELF file")
    else if U16(d[18..20]) != EM_PPC64 then Some("Unsupported machine")
    else if U16(d[58..60]) != 64 then Some("Unexpected section header entry size")
    else None
  }

  function Shoff(d: seq<byte>): u64 requires |d| >= 64 { U64(d[40..48]) }
  function Shnum(d: seq<byte>): u16 requires |d| >= 64 { U16(d[60..62]) }
  function Shstrndx(d: seq<byte>): u16 requires |d| >= 64 { U16(d[62..64]) }

  /** Decodes one 64-byte section header; its name is filled in later. */
  function DecodeShdr(s: seq<byte>): Section
    requires |s| == 64
  {
    Section(U32(s[0..4]), "", U32(s[4..8]), U64(s[8..16]), U64(s[16..24]), U64(s[24..32]),
            U64(s[32..40]), U32(s[40..44]), U32(s[44..48]), U64(s[48..56]), U64(s[56..64]))
  }

  /** The first `n` section headers, in table order. */
  function Shdrs(d: seq<byte>, shoff: nat, n: nat): (r: seq<Section>)
    requires n == 0 || shoff + 64 * n <= |d|
    ensures |r| == n
  {
    if n == 0 then []
    else Shdrs(d, shoff, n - 1) + [DecodeShdr(d[shoff + 64 * (n - 1)..shoff + 64 * n])]
  }

  predicate ShdrsFit(d: seq<byte>)
    requires |d| >= 64
  {
    Shnum(d) == 0 || Shoff(d) + 64 * Shnum(d) <= |d|
  }

  function AllShdrs(d: seq<byte>): seq<Section>
    requires |d| >= 64 && ShdrsFit(d)
  {
    Shdrs(d, Shoff(d), Shnum(d))
  }

  predicate SectionFits(d: seq<byte>, s: Section) {
    s.offset + s.size <= |d|
  }

  function Contents(d: seq<byte>, s: Section): seq<byte>
    requires SectionFits(d, s)
  {
    d[s.offset..s.offset + s.size]
  }

  predicate NamesInTable(shdrs: seq<Section>, table: seq<byte>) {
    forall i :: 0 <= i < |shdrs| ==> shdrs[i].nameIdx <= |table|
  }

  /** Successive `insert`s: for a repeated name the last header wins. */
  function SectionMap(shdrs: seq<Section>, table: seq<byte>): map<string, Section>
    requires NamesInTable(shdrs, table)
  {
    if shdrs == [] then map[]
    else
      var last := shdrs[|shdrs| - 1];
      var name := NameAt(table, last.nameIdx);
      SectionMap(shdrs[..|shdrs| - 1], table)[name := last.(name := name)]
  }

  function EntSize(sym: Section): nat {
    if sym.entsize > 0 then sym.entsize else 24
  }

  function NumSyms(sym: Section): nat {
    sym.size / EntSize(sym)
  }

  /** The last symbol entry can be read up to the end of its value field. */
  predicate SymsReadable(sym: Section) {
    NumSyms(sym) == 0 || (NumSyms(sym) - 1) * EntSize(sym) + 16 <= sym.size
  }

  lemma {:induction false} EntryInside(i: nat, n: nat, e: nat)
    requires i < n
    ensures i * e <= (n - 1) * e
  {
    if i < n - 1 { EntryInside(i, n - 1, e); assert (n - 2) * e <= (n - 1) * e; }
  }

  /** The first `n` symbols: entries whose name index is outside the string
      table or whose name is empty are skipped, and the last entry wins. */
  function SymbolMap(syms: seq<byte>, strs: seq<byte>, ent: nat, n: nat): map<string, u64>
    requires n == 0 || (n - 1) * ent + 16 <= |syms|
  {
    if n == 0 then map[]
    else
      var off := (n - 1) * ent;
      assert n > 1 ==> (n - 2) * ent + 16 <= |syms| by { if n > 1 { EntryInside(n - 2, n, ent); } }
      var rest := SymbolMap(syms, strs, ent, n - 1);
      var idx := U32(syms[off..off + 4]);
      if idx < |strs| && NameAt(strs, idx) != ""
      then rest[NameAt(strs, idx) := U64(syms[off + 8..off + 16])]
      else rest
  }

  function Symbols(d: seq<byte>, sections: map<string, Section>): map<string, u64>
    requires SymtabReadable(d, sections)
  {
    if HasSymtab(d, sections) then
      var sym, str := sections[".symtab"], sections[".strtab"];
      SymbolMap(Contents(d, sym), Contents(d, str), EntSize(sym), NumSyms(sym))
    else map[]
  }

  predicate HasSymtab(d: seq<byte>, sections: map<string, Section>) {
    && ".symtab" in sections && ".strtab" in sections
    && SectionFits(d, sections[".symtab"]) && SectionFits(d, sections[".strtab"])
  }

  predicate SymtabReadable(d: seq<byte>, sections: map<string, Section>) {
    HasSymtab(d, sections) ==> SymsReadable(sections[".symtab"])
  }

  // ---------- the whole parser ----------

  predicate HeaderOk(d: seq<byte>) {
    HeaderError(d) == None && ShdrsFit(d) && Shstrndx(d) < Shnum(d)
      && SectionFits(d, AllShdrs(d)[Shstrndx(d)])
  }

  function Shstrtab(d: seq<byte>): seq<byte>
    requires HeaderOk(d)
  {
    Contents(d, AllShdrs(d)[Shstrndx(d)])
  }

  /** The indexing `new` does without a check stays in bounds, and no 64-bit
      sum it forms wraps: outside this predicate the source panics. */
  predicate Indexable(d: seq<byte>) {
    && |d| < 0x8000_0000_0000_0000
    && (HeaderError(d) == None ==> Shnum(d) == 0 || Shoff(d) + 64 < TWO64)
    && (HeaderError(d) == None && ShdrsFit(d) && Shstrndx(d) < Shnum(d) ==>
          var s := AllShdrs(d)[Shstrndx(d)]; s.offset + s.size < TWO64)
    && (HeaderOk(d) ==>
          && NamesInTable(AllShdrs(d), Shstrtab(d))
          && var sections := SectionMap(AllShdrs(d), Shstrtab(d));
             && (".symtab" in sections && ".strtab" in sections ==>
                   && sections[".symtab"].offset + sections[".symtab"].size < TWO64
                   && sections[".strtab"].offset + sections[".strtab"].size < TWO64)
             && SymtabReadable(d, sections))
  }

  /** The result of `ElfPatcher::new`. */
  function Parse(d: seq<byte>): Result<Image>
    requires Indexable(d)
  {
    if HeaderError(d).Some? then Err(HeaderError(d).value)
    else if !ShdrsFit(d) then Err("Section header table exceeds file boundary")
    else if Shstrndx(d) >= Shnum(d) then Err("Invalid shstrndx section index")
    else if !SectionFits(d, AllShdrs(d)[Shstrndx(d)]) then Err("shstrtab exceeds file bounds")
    else
      var sections := SectionMap(AllShdrs(d), Shstrtab(d));
      Ok(Image(d, U64(d[24..32]), U64(d[32..40]), Shoff(d), U16(d[56..58]), Shnum(d), Shstrndx(d),
               sections, Symbols(d, sections)))
  }
}
