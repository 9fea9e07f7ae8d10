/** What the parser takes from a file and what it refuses, byte offset by byte
    offset (System V gABI chapter 4). */
module ParsedBytes {
  import opened Bytes
  import opened Wrappers
  import opened Elf
  import opened ReadBack

  // ---------- which files are accepted ----------

  /** Where section header `i` is. */
  function HeaderPlace(d: seq<byte>, i: nat): nat
    requires |d| >= 64
  {
    U64(d[40..48]) + 64 * i
  }

  predicate IdentOk(d: seq<byte>) {
    && |d| >= 64 && d[0] == 0x7f && d[1] == 'E' as int && d[2] == 'L' as int && d[3] == 'F' as int
    && d[4] == 2 && d[5] == 2 && U16(d[18..20]) == 21 && U16(d[58..60]) == 64
  }

  predicate TableInFile(d: seq<byte>)
    requires |d| >= 64
  {
    U16(d[60..62]) == 0 || U64(d[40..48]) + 64 * U16(d[60..62]) <= |d|
  }

  /** The section of the section names lies in the file. */
  predicate NamesInFile(d: seq<byte>)
    requires |d| >= 64 && TableInFile(d) && U16(d[62..64]) < U16(d[60..62])
  {
    var t := HeaderPlace(d, U16(d[62..64]));
    U64(d[t + 24..t + 32]) + U64(d[t + 32..t + 40]) <= |d|
  }

  predicate Accepted(d: seq<byte>) {
    IdentOk(d) && TableInFile(d) && U16(d[62..64]) < U16(d[60..62]) && NamesInFile(d)
  }

  /** Exactly these files are accepted: ELF64, big-endian, PowerPC64, with 64-byte
      section headers in the file, one of which holds the section names. */
  lemma {:induction false} AcceptedExactly(d: seq<byte>)
    requires Indexable(d)
    ensures Parse(d).Ok? <==> Accepted(d)
  {
    hide U16, U64, U32, SectionMap, Symbols, NamesInTable, SymtabReadable;
    if |d| >= 64 {
      Magic(d);
      if ShdrsFit(d) && Shstrndx(d) < Shnum(d) { ShdrIs(d, Shstrndx(d)); }
    }
  }

  lemma {:induction false} Magic(d: seq<byte>)
    requires |d| >= 4
    ensures d[0..4] == ELF_MAGIC <==> d[0] == 0x7f && d[1] == 'E' as int && d[2] == 'L' as int && d[3] == 'F' as int
  {
  }

  /** The first check that fails gives the error. */
  lemma {:induction false} RefusedWith(d: seq<byte>)
    requires Indexable(d) && Parse(d).Err?
    ensures Parse(d).message ==
      if |d| < 64 then "File too small to be a valid ELF64 header"
      else if d[0] != 0x7f || d[1] != 'E' as int || d[2] != 'L' as int || d[3] != 'F' as int then "Invalid ELF magic"
      else if d[4] != 2 then "Not a 64-bit ELF file"
      else if d[5] != 2 then "Not a Big-Endian (MSB) ELF file"
      else if U16(d[18..20]) != 21 then "Unsupported machine"
      else if U16(d[58..60]) != 64 then "Unexpected section header entry size"
      else if !TableInFile(d) then "Section header table exceeds file boundary"
      else if U16(d[62..64]) >= U16(d[60..62]) then "Invalid shstrndx section index"
      else "shstrtab exceeds file bounds"
  {
    hide U16, U64, SectionMap, Symbols, NamesInTable, SymtabReadable;
    if |d| >= 64 { Magic(d); }
  }

  // ---------- what is read out of them ----------

  /** The header fields. */
  predicate HeaderRead(g: Image, d: seq<byte>)
    requires |d| >= 64
  {
    && g.data == d && g.entry == U64(d[24..32]) && g.phoff == U64(d[32..40]) && g.shoff == U64(d[40..48])
    && g.phnum == U16(d[56..58]) && g.shnum == U16(d[60..62]) && g.shstrndx == U16(d[62..64])
  }

  lemma {:induction false} ParsedHeader(d: seq<byte>)
    requires Indexable(d) && Parse(d).Ok?
    ensures |d| >= 64 && HeaderRead(Parse(d).value, d)
  {
    hide U16, U64, SectionMap, Symbols, NamesInTable, SymtabReadable, SectionFits, AllShdrs;
  }

  /** The fields of the section header at `t`; its name is read elsewhere. */
  predicate FieldsAt(d: seq<byte>, t: nat, s: Section)
    requires t + 64 <= |d|
  {
    && s.nameIdx == U32(d[t..t + 4]) && s.shType == U32(d[t + 4..t + 8]) && s.flags == U64(d[t + 8..t + 16])
    && s.addr == U64(d[t + 16..t + 24]) && s.offset == U64(d[t + 24..t + 32]) && s.size == U64(d[t + 32..t + 40])
    && s.link == U32(d[t + 40..t + 44]) && s.info == U32(d[t + 44..t + 48])
    && s.addralign == U64(d[t + 48..t + 56]) && s.entsize == U64(d[t + 56..t + 64])
  }

  lemma {:induction false} ShdrIs(d: seq<byte>, i: nat)
    requires |d| >= 64 && ShdrsFit(d) && i < Shnum(d)
    ensures HeaderPlace(d, i) + 64 <= |d| && FieldsAt(d, HeaderPlace(d, i), AllShdrs(d)[i])
  {
    hide U32, U64, U16, DecodeShdr;
    ShdrOf(d, Shoff(d), Shnum(d), i);
    ShdrBytes(d, HeaderPlace(d, i));
  }

  lemma {:induction false} ShdrOf(d: seq<byte>, shoff: nat, n: nat, i: nat)
    requires i < n && shoff + 64 * n <= |d|
    ensures Shdrs(d, shoff, n)[i] == DecodeShdr(d[shoff + 64 * i..shoff + 64 * i + 64])
  {
    hide DecodeShdr;
    if i < n - 1 { ShdrOf(d, shoff, n - 1, i); }
  }

  lemma {:induction false} ShdrBytes(d: seq<byte>, t: nat)
    requires t + 64 <= |d|
    ensures FieldsAt(d, t, DecodeShdr(d[t..t + 64]))
  {
    hide U32, U64;
    SliceOfSlice(d, t, t + 64, 0, 4); SliceOfSlice(d, t, t + 64, 4, 8); SliceOfSlice(d, t, t + 64, 8, 16);
    SliceOfSlice(d, t, t + 64, 16, 24); SliceOfSlice(d, t, t + 64, 24, 32); SliceOfSlice(d, t, t + 64, 32, 40);
    SliceOfSlice(d, t, t + 64, 40, 44); SliceOfSlice(d, t, t + 64, 44, 48); SliceOfSlice(d, t, t + 64, 48, 56);
    SliceOfSlice(d, t, t + 64, 56, 64);
  }

  /** The section of section names. */
  function NameBytes(d: seq<byte>): seq<byte>
    requires Accepted(d)
  {
    var t := HeaderPlace(d, U16(d[62..64]));
    d[U64(d[t + 24..t + 32])..U64(d[t + 24..t + 32]) + U64(d[t + 32..t + 40])]
  }

  /** Where the name of section `i` starts there. */
  function NameIndexOf(d: seq<byte>, i: nat): u32
    requires Accepted(d) && i < U16(d[60..62])
  {
    var t := HeaderPlace(d, i);
    U32(d[t..t + 4])
  }

  predicate AllNamed(d: seq<byte>)
    requires Accepted(d)
  {
    forall i :: 0 <= i < U16(d[60..62]) ==> NameIndexOf(d, i) <= |NameBytes(d)|
  }

  /** The bytes up to a NUL, or to the end. */
  function NameOf(d: seq<byte>, i: nat): string
    requires Accepted(d) && AllNamed(d) && i < U16(d[60..62])
  {
    NameAt(NameBytes(d), NameIndexOf(d, i))
  }

  /** Section `i` is the last of its name. */
  predicate LastNamed(d: seq<byte>, i: nat)
    requires Accepted(d) && AllNamed(d) && i < U16(d[60..62])
  {
    forall j :: i < j < U16(d[60..62]) ==> NameOf(d, j) != NameOf(d, i)
  }

  /** The map holds the names of the table, each with the fields of its last header. */
  ghost predicate SectionsRead(m: map<string, Section>, d: seq<byte>)
    requires Accepted(d) && AllNamed(d)
  {
    && (forall k :: k in m <==> exists i :: 0 <= i < U16(d[60..62]) && NameOf(d, i) == k)
    && (forall i :: 0 <= i < U16(d[60..62]) && LastNamed(d, i) && NameOf(d, i) in m ==>
          FieldsAt(d, HeaderPlace(d, i), m[NameOf(d, i)]) && m[NameOf(d, i)].name == NameOf(d, i))
  }

  lemma {:induction false} NamesAre(d: seq<byte>)
    requires Indexable(d) && Accepted(d)
    ensures HeaderOk(d) && NameBytes(d) == Shstrtab(d) && AllNamed(d) && NamesInTable(AllShdrs(d), Shstrtab(d))
    ensures forall i :: 0 <= i < U16(d[60..62]) ==> NameIndexOf(d, i) == AllShdrs(d)[i].nameIdx
  {
    hide U16, U64, U32, SectionMap, SymtabReadable;
    Magic(d);
    ShdrIs(d, Shstrndx(d));
    forall i | 0 <= i < U16(d[60..62]) ensures NameIndexOf(d, i) == AllShdrs(d)[i].nameIdx { ShdrIs(d, i); }
  }

  lemma {:induction false} ParsedSections(d: seq<byte>)
    requires Indexable(d) && Parse(d).Ok?
    ensures Accepted(d) && AllNamed(d) && SectionsRead(Parse(d).value.sections, d)
  {
    hide Indexable, Parse, Accepted, AllNamed, SectionsRead;
    AcceptedExactly(d);
    NamesAre(d);
    SectionsOf(d);
    TableRead(d);
  }

  lemma {:induction false} SectionsOf(d: seq<byte>)
    requires Indexable(d) && Parse(d).Ok? && HeaderOk(d) && NamesInTable(AllShdrs(d), Shstrtab(d))
    ensures Parse(d).value.sections == SectionMap(AllShdrs(d), Shstrtab(d))
  {
    hide U16, U64, U32, SectionMap, Symbols, SymtabReadable, AllShdrs, Shstrtab, HeaderError;
  }

  lemma {:induction false} TableRead(d: seq<byte>)
    requires Accepted(d) && HeaderOk(d) && AllNamed(d) && NameBytes(d) == Shstrtab(d)
    requires NamesInTable(AllShdrs(d), Shstrtab(d))
    requires forall i :: 0 <= i < U16(d[60..62]) ==> NameIndexOf(d, i) == AllShdrs(d)[i].nameIdx
    ensures SectionsRead(SectionMap(AllShdrs(d), Shstrtab(d)), d)
  {
    hide U16, U64, NameAt, SectionMap, AllShdrs, Shstrtab, NameBytes, FieldsAt, NameIndexOf, HeaderPlace, HeaderError,
      SectionFits;
    var shdrs, n := AllShdrs(d), U16(d[60..62]);
    TableSize(d);
    var m, names := SectionMap(shdrs, Shstrtab(d)), seq(n, i requires 0 <= i < n => NameOf(d, i));
    SectionMapLastWins(shdrs, Shstrtab(d), names);
    forall i | 0 <= i < n && LastNamed(d, i) && NameOf(d, i) in m
      ensures FieldsAt(d, HeaderPlace(d, i), m[NameOf(d, i)]) && m[NameOf(d, i)].name == NameOf(d, i)
    {
      assert LastOf(names, i);
      ShdrIs(d, i);
      SameFields(d, HeaderPlace(d, i), shdrs[i], NameOf(d, i));
    }
    forall k ensures k in names <==> exists i :: 0 <= i < n && NameOf(d, i) == k {
      if i :| 0 <= i < n && NameOf(d, i) == k { assert names[i] == k; }
    }
  }

  lemma {:induction false} TableSize(d: seq<byte>)
    requires Accepted(d) && HeaderOk(d)
    ensures |AllShdrs(d)| == U16(d[60..62]) == Shnum(d)
    ensures forall i :: 0 <= i < U16(d[60..62]) ==> HeaderPlace(d, i) + 64 <= |d|
  {
    hide U16, U64;
  }

  lemma {:induction false} SameFields(d: seq<byte>, t: nat, s: Section, name: string)
    requires t + 64 <= |d| && FieldsAt(d, t, s)
    ensures FieldsAt(d, t, s.(name := name))
  {
    hide U32, U64;
  }

  // ---------- symbols ----------

  /** The first 16 bytes of a symbol: name index and value are in them. */
  type Entry = e: seq<byte> | |e| == 16 witness seq(16, _ => 0)

  /** The symbol names `name`: its index is in the string table, and an empty name
      is none. */
  predicate Names(e: Entry, strs: seq<byte>, name: string) {
    var idx := U32(e[0..4]);
    idx < |strs| && NameAt(strs, idx) == name && name != ""
  }

  /** `es` are the first symbols of a table with `ent` bytes for each. */
  ghost predicate EntriesOf(es: seq<Entry>, syms: seq<byte>, ent: nat) {
    forall i :: 0 <= i < |es| ==> EntryIs(es[i], syms, ent, i)
  }

  predicate EntryIs(e: Entry, syms: seq<byte>, ent: nat, i: nat) {
    i * ent + 16 <= |syms| && e == syms[i * ent..i * ent + 16]
  }

  /** Entry `i` is the last that names `name`. */
  ghost predicate NamesLast(es: seq<Entry>, strs: seq<byte>, i: nat, name: string) {
    i < |es| && Names(es[i], strs, name) && forall j :: i < j < |es| ==> !Names(es[j], strs, name)
  }

  /** `m` maps the names that occur, each to the value of its last entry. */
  ghost predicate SymbolsAre(m: map<string, u64>, es: seq<Entry>, strs: seq<byte>) {
    && (forall k :: k in m <==> exists i :: 0 <= i < |es| && Names(es[i], strs, k))
    && (forall i: nat, k :: NamesLast(es, strs, i, k) ==> k in m && m[k] == U64(es[i][8..16]))
  }

  lemma {:induction false} SymbolStep(syms: seq<byte>, strs: seq<byte>, ent: nat, n: nat, e: Entry)
    requires n > 0 && (n - 1) * ent + 16 <= |syms| && EntryIs(e, syms, ent, n - 1)
    ensures n > 1 ==> (n - 2) * ent + 16 <= |syms|
    ensures var idx, rest := U32(e[0..4]), SymbolMap(syms, strs, ent, n - 1);
      SymbolMap(syms, strs, ent, n) ==
        if idx < |strs| && NameAt(strs, idx) != "" then rest[NameAt(strs, idx) := U64(e[8..16])] else rest
  {
    hide U32, U64, NameAt;
    if n > 1 { EntryInside(n - 2, n, ent); }
    var off := (n - 1) * ent;
    SliceOfSlice(syms, off, off + 16, 0, 4);
    SliceOfSlice(syms, off, off + 16, 8, 16);
  }

  /** The map of a whole symbol table, whatever the size of its entries. */
  lemma {:induction false} SymbolMapExactly(syms: seq<byte>, strs: seq<byte>, ent: nat, es: seq<Entry>)
    requires EntriesOf(es, syms, ent) && (|es| == 0 || (|es| - 1) * ent + 16 <= |syms|)
    ensures SymbolsAre(SymbolMap(syms, strs, ent, |es|), es, strs)
  {
    hide U32, U64, NameAt, SymbolMap, EntryIs;
    if es == [] {
      NoSymbols(syms, strs, ent);
    } else {
      var n := |es| - 1;
      var init, last := es[..n], es[n];
      assert EntryIs(last, syms, ent, n);
      SymbolStep(syms, strs, ent, n + 1, last);
      SymbolMapExactly(syms, strs, ent, init);
      AddSymbol(SymbolMap(syms, strs, ent, n), init, last, strs);
      assert es == init + [last];
    }
  }

  lemma {:induction false} NoSymbols(syms: seq<byte>, strs: seq<byte>, ent: nat)
    ensures SymbolMap(syms, strs, ent, 0) == map[]
  {
  }

  lemma {:induction false} AddSymbol(rest: map<string, u64>, init: seq<Entry>, last: Entry, strs: seq<byte>)
    requires SymbolsAre(rest, init, strs)
    ensures var idx := U32(last[0..4]);
      var m := if idx < |strs| && NameAt(strs, idx) != "" then rest[NameAt(strs, idx) := U64(last[8..16])] else rest;
      SymbolsAre(m, init + [last], strs)
  {
    hide U32, U64, NameAt;
    var idx := U32(last[0..4]);
    var m := if idx < |strs| && NameAt(strs, idx) != "" then rest[NameAt(strs, idx) := U64(last[8..16])] else rest;
    var es := init + [last];
    forall k ensures k in m <==> exists i :: 0 <= i < |es| && Names(es[i], strs, k) {
      if i :| 0 <= i < |init| && Names(init[i], strs, k) { assert es[i] == init[i]; }
      assert es[|init|] == last;
    }
    forall i: nat, k | NamesLast(es, strs, i, k) ensures k in m && m[k] == U64(es[i][8..16]) {
      if i < |init| {
        assert !Names(es[|init|], strs, k);
        forall j | i < j < |init| ensures !Names(init[j], strs, k) { assert es[j] == init[j]; }
        assert NamesLast(init, strs, i, k);
      }
    }
  }

  /** The symbols of an accepted file: those of `.symtab`, with names from
      `.strtab` and 24 bytes an entry when its header does not say, or none when
      one of the two is missing or not in the file. */
  lemma {:induction false} ParsedSymbols(d: seq<byte>, es: seq<Entry>)
    requires Indexable(d) && Parse(d).Ok?
    ensures var g := Parse(d).value;
      if ".symtab" in g.sections && ".strtab" in g.sections
         && g.sections[".symtab"].offset + g.sections[".symtab"].size <= |d|
         && g.sections[".strtab"].offset + g.sections[".strtab"].size <= |d|
      then
        var s, t := g.sections[".symtab"], g.sections[".strtab"];
        var ent := if s.entsize == 0 then 24 else s.entsize;
        EntriesOf(es, d[s.offset..s.offset + s.size], ent) && |es| == s.size / ent ==>
          SymbolsAre(g.symbols, es, d[t.offset..t.offset + t.size])
      else g.symbols == map[]
  {
    hide U16, U32, U64, NameAt, SectionMap, SymbolMap, HeaderError, Shoff, AllShdrs, EntriesOf, SymbolsAre,
      Shstrtab, NamesInTable;
    var g := Parse(d).value;
    if HasSymtab(d, g.sections) {
      var s, t := g.sections[".symtab"], g.sections[".strtab"];
      if EntriesOf(es, Contents(d, s), EntSize(s)) && |es| == NumSyms(s) {
        SymbolMapExactly(Contents(d, s), Contents(d, t), EntSize(s), es);
      }
    }
  }
}
