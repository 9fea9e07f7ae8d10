/** `ElfPatcher::new` against the writer of `Encoder`. */
module ReadBack {
  import opened Bytes
  import opened Wrappers
  import opened Elf
  import opened Encoder
  import P = ProgramHeaders

  // ---------- last occurrence wins ----------

  /** `names[i]` does not occur again after position `i`. */
  predicate LastOf(names: seq<string>, i: nat)
    requires i < |names|
  {
    forall j :: i < j < |names| ==> names[j] != names[i]
  }

  lemma {:induction false} SectionMapNone(table: seq<byte>)
    ensures SectionMap([], table) == map[]
  {
  }

  lemma {:induction false} SectionMapStep(shdrs: seq<Section>, table: seq<byte>)
    requires NamesInTable(shdrs, table) && shdrs != []
    ensures var n := |shdrs| - 1;
      && NamesInTable(shdrs[..n], table)
      && var name := NameAt(table, shdrs[n].nameIdx);
      SectionMap(shdrs, table) == SectionMap(shdrs[..n], table)[name := shdrs[n].(name := name)]
  {
    hide NameAt;
  }

  lemma {:induction false} SectionMapLastWins(shdrs: seq<Section>, table: seq<byte>, names: seq<string>)
    requires NamesInTable(shdrs, table) && |names| == |shdrs|
    requires forall i :: 0 <= i < |names| ==> NameAt(table, shdrs[i].nameIdx) == names[i]
    ensures var m := SectionMap(shdrs, table);
      && (forall k :: k in m <==> k in names)
      && (forall i :: 0 <= i < |names| && LastOf(names, i) ==> m[names[i]] == shdrs[i].(name := names[i]))
  {
    hide NameAt, SectionMap;
    if shdrs == [] {
      SectionMapNone(table);
    } else {
      var n := |shdrs| - 1;
      SectionMapLastWins(shdrs[..n], table, names[..n]);
      SectionMapStep(shdrs, table);
      var m := SectionMap(shdrs, table);
      forall k ensures k in m <==> k in names { assert k in names <==> k in names[..n] || k == names[n]; }
      forall i | 0 <= i < n && LastOf(names, i) ensures m[names[i]] == shdrs[i].(name := names[i]) {
        assert names[n] != names[i];
        assert LastOf(names[..n], i);
        assert names[i] in names[..n];
      }
    }
  }

  /** Symbol entry `i` names `name` and holds `value`. */
  predicate SymEntry(syms: seq<byte>, strs: seq<byte>, i: nat, name: string, value: u64) {
    && 24 * i + 16 <= |syms|
    && var idx := U32(syms[24 * i..24 * i + 4]);
    && idx < |strs| && NameAt(strs, idx) == name && U64(syms[24 * i + 8..24 * i + 16]) == value
  }

  lemma {:induction false} SymbolMapNone(syms: seq<byte>, strs: seq<byte>)
    ensures SymbolMap(syms, strs, 24, 0) == map[]
  {
  }

  lemma {:induction false} SymbolMapStep(syms: seq<byte>, strs: seq<byte>, n: nat, name: string, value: u64)
    requires 24 * (n + 1) <= |syms| && SymEntry(syms, strs, n, name, value)
    ensures var rest := SymbolMap(syms, strs, 24, n);
      SymbolMap(syms, strs, 24, n + 1) == if name != "" then rest[name := value] else rest
  {
    hide NameAt, U32, U64;
  }

  lemma {:induction false} SymbolMapLastWins(syms: seq<byte>, strs: seq<byte>, names: seq<string>, values: seq<u64>)
    requires |names| == |values| && 24 * |names| <= |syms|
    requires forall i :: 0 <= i < |names| ==> SymEntry(syms, strs, i, names[i], values[i])
    ensures var m := SymbolMap(syms, strs, 24, |names|);
      && (forall k :: k in m <==> k != "" && k in names)
      && (forall i :: 0 <= i < |names| && names[i] != "" && LastOf(names, i) ==> m[names[i]] == values[i])
  {
    hide NameAt, SymbolMap, SymEntry;
    if names == [] {
      SymbolMapNone(syms, strs);
    } else {
      var n := |names| - 1;
      SymbolMapLastWins(syms, strs, names[..n], values[..n]);
      SymbolMapStep(syms, strs, n, names[n], values[n]);
      assert names == names[..n] + [names[n]];
      var m := SymbolMap(syms, strs, 24, |names|);
      forall k ensures k in m <==> k != "" && k in names { assert k in names <==> k in names[..n] || k == names[n]; }
      forall i | 0 <= i < n && names[i] != "" && LastOf(names, i) ensures m[names[i]] == values[i] {
        assert names[n] != names[i];
        assert LastOf(names[..n], i);
        assert names[i] in names[..n];
      }
    }
  }

  // ---------- the parts of the file ----------

  lemma {:induction false} EncodeParts(f: ElfSpec)
    requires Encodable(f)
    ensures var d := Encode(f);
      && |d| == ShdrOffset(f) + 64 * |AllSecs(f)|
      && d[..64] == FileHeader(f) && d[64..BodyStart(f)] == Concat(PhdrChunks(f))
      && d[BodyStart(f)..ShdrOffset(f)] == Concat(Chunks(f)) && d[ShdrOffset(f)..] == Concat(ShdrChunks(f))
  {
    hide Concat, FileHeader, Chunks, ShdrChunks;
    var p, s := PhdrChunks(f), ShdrChunks(f);
    ConcatFixed(p, 56, |p|);
    ConcatFixed(s, 64, |s|);
    assert p[..|p|] == p && s[..|s|] == s;
  }

  lemma {:induction false} HeaderFields(f: ElfSpec)
    requires Encodable(f)
    ensures var h := FileHeader(f);
      && h[0..4] == ELF_MAGIC && h[4] == 2 && h[5] == 2 && h[18..20] == BE(EM_PPC64, 2)
      && h[24..32] == BE(f.entry, 8) && h[32..40] == BE(64, 8) && h[40..48] == BE(ShdrOffset(f), 8)
      && h[56..58] == BE(|f.phdrs|, 2) && h[58..60] == BE(64, 2) && h[60..62] == BE(|AllSecs(f)|, 2)
      && h[62..64] == BE(|AllSecs(f)| - 1, 2)
  {
    hide BE, ShdrOffset, AllSecs;
  }

  /** The header fields the parser reads. */
  predicate HeaderIs(d: seq<byte>, entry: u64, phnum: nat, shoff: nat, shnum: nat) {
    && HeaderError(d) == None && |d| >= 64
    && Shoff(d) == shoff && Shnum(d) == shnum && Shstrndx(d) == shnum - 1
    && U64(d[24..32]) == entry && U64(d[32..40]) == 64 && U16(d[56..58]) == phnum
  }

  lemma {:induction false} HeaderReadsBack(f: ElfSpec)
    requires Encodable(f)
    ensures HeaderIs(Encode(f), f.entry, |f.phdrs|, ShdrOffset(f), |AllSecs(f)|)
  {
    hide Encode, FileHeader, BE, Val, ShdrOffset, AllSecs, U16, U64;
    EncodeParts(f);
    HeaderFields(f);
    var d, h := Encode(f), FileHeader(f);
    assert forall a, b {:trigger d[a..b]} :: 0 <= a <= b <= 64 ==> d[a..b] == d[..64][a..b];
    assert d[4] == d[..64][4] && d[5] == d[..64][5];
    FieldRoundTrip16(EM_PPC64); FieldRoundTrip16(64); FieldRoundTrip64(64); FieldRoundTrip64(f.entry);
    FieldRoundTrip64(ShdrOffset(f)); FieldRoundTrip16(|f.phdrs|);
    assert |AllSecs(f)| == |f.secs| + 4;
    FieldRoundTrip16(|AllSecs(f)|); FieldRoundTrip16(|AllSecs(f)| - 1);
    assert d[0..4] == ELF_MAGIC && d[18..20] == BE(EM_PPC64, 2) && d[58..60] == BE(64, 2);
    assert d[24..32] == BE(f.entry, 8) && d[32..40] == BE(64, 8) && d[40..48] == BE(ShdrOffset(f), 8);
    assert d[56..58] == BE(|f.phdrs|, 2) && d[60..62] == BE(|AllSecs(f)|, 2) && d[62..64] == BE(|AllSecs(f)| - 1, 2);
  }

  lemma {:induction false} ContentsReadBack(f: ElfSpec, i: nat)
    requires Encodable(f) && i < |AllSecs(f)|
    ensures var o, c := ContentOffset(f, i), AllSecs(f)[i].content;
      o + |c| <= |Encode(f)| && Encode(f)[o..o + |c|] == c
  {
    hide Concat, Encode, AllSecs, FileHeader, ShdrChunks, PhdrChunks;
    EncodeParts(f);
    ConcatAt(Chunks(f), i);
    var d, b := Encode(f), BodyStart(f);
    var lo, hi, s := ChunkStart(Chunks(f), i), ChunkStart(Chunks(f), i + 1), AllSecs(f)[i];
    SliceOfSlice(d, b, ShdrOffset(f), lo, hi);
    SliceOfSlice(d, b + lo, b + hi, s.pad, hi - lo);
    assert (Zeros(s.pad) + s.content)[s.pad..] == s.content;
  }

  lemma {:induction false} ShdrFront(s: Section)
    ensures var c := ShdrChunk(s);
      c[0..4] == BE(s.nameIdx, 4) && c[4..8] == BE(s.shType, 4) && c[8..16] == BE(s.flags, 8)
  {
    hide BE;
  }

  lemma {:induction false} ShdrMiddle(s: Section)
    ensures var c := ShdrChunk(s);
      c[16..24] == BE(s.addr, 8) && c[24..32] == BE(s.offset, 8) && c[32..40] == BE(s.size, 8)
  {
    hide BE;
  }

  lemma {:induction false} ShdrBack(s: Section)
    ensures var c := ShdrChunk(s);
      && c[40..44] == BE(s.link, 4) && c[44..48] == BE(s.info, 4) && c[48..56] == BE(s.addralign, 8)
      && c[56..64] == BE(s.entsize, 8)
  {
    hide BE;
  }

  lemma {:induction false} ShdrDecodes(s: Section)
    ensures DecodeShdr(ShdrChunk(s)) == s.(name := "")
  {
    hide BE, U32, U64, ShdrChunk;
    ShdrFront(s);
    ShdrMiddle(s);
    ShdrBack(s);
    FieldRoundTrip32(s.nameIdx); FieldRoundTrip32(s.shType); FieldRoundTrip64(s.flags); FieldRoundTrip64(s.addr);
    FieldRoundTrip64(s.offset); FieldRoundTrip64(s.size); FieldRoundTrip32(s.link); FieldRoundTrip32(s.info);
    FieldRoundTrip64(s.addralign); FieldRoundTrip64(s.entsize);
  }

  lemma {:induction false} ShdrsReadBack(f: ElfSpec, n: nat)
    requires Encodable(f) && n <= |AllSecs(f)|
    ensures ShdrOffset(f) + 64 * n <= |Encode(f)|
    ensures var r := Shdrs(Encode(f), ShdrOffset(f), n);
      forall i :: 0 <= i < n ==> r[i] == SectionOf(f, i).(name := "")
  {
    hide Encode, DecodeShdr, ShdrChunk, AllSecs, SectionOf, Concat, ShdrOffset, Chunks, FileHeader, PhdrChunks;
    EncodeParts(f);
    if n > 0 {
      ShdrsReadBack(f, n - 1);
      var d, o := Encode(f), ShdrOffset(f);
      ConcatAt(ShdrChunks(f), n - 1);
      ConcatFixed(ShdrChunks(f), 64, n - 1);
      ConcatFixed(ShdrChunks(f), 64, n);
      SliceOfSlice(d, o, |d|, 64 * (n - 1), 64 * n);
      assert d[o..|d|] == d[o..];
      assert d[o + 64 * (n - 1)..o + 64 * n] == ShdrChunk(SectionOf(f, n - 1));
      ShdrDecodes(SectionOf(f, n - 1));
    }
  }

  lemma {:induction false} SymReadsBack(f: ElfSpec, i: nat)
    requires TablesFit(f) && i < |AllSyms(f)|
    ensures 24 * |AllSyms(f)| == |SymTab(f)|
    ensures SymEntry(SymTab(f), StrTab(SymNames(f)), i, AllSyms(f)[i].name, AllSyms(f)[i].value)
  {
    hide Concat, U32, U64, BE, StrTab, NameAt;
    var t, cs, s := SymTab(f), SymChunks(f), AllSyms(f)[i];
    ConcatAt(cs, i);
    ConcatFixed(cs, 24, i);
    ConcatFixed(cs, 24, i + 1);
    ConcatFixed(cs, 24, |cs|);
    assert cs[..|cs|] == cs;
    var c := SymChunk(f, i);
    assert t[24 * i..24 * i + 24] == c;
    SliceOfSlice(t, 24 * i, 24 * i + 24, 0, 4);
    SliceOfSlice(t, 24 * i, 24 * i + 24, 8, 16);
    assert c[0..4] == BE(NameIndex(SymNames(f), i), 4) && c[8..16] == BE(s.value, 8);
    NameReadsBack(SymNames(f), i);
    FieldRoundTrip32(NameIndex(SymNames(f), i));
    FieldRoundTrip64(s.value);
  }

  lemma {:induction false} PhdrsReadBack(f: ElfSpec, n: nat)
    requires Encodable(f) && n <= |f.phdrs|
    ensures 64 + 56 * n <= |Encode(f)| && P.Table(Encode(f), 64, n) == f.phdrs[..n]
  {
    hide Encode, Concat, P.Decode, P.Encode, Chunks, FileHeader, ShdrChunks, AllSecs;
    EncodeParts(f);
    if n > 0 {
      PhdrsReadBack(f, n - 1);
      var d, cs := Encode(f), PhdrChunks(f);
      ConcatAt(cs, n - 1);
      ConcatFixed(cs, 56, n - 1);
      ConcatFixed(cs, 56, n);
      SliceOfSlice(d, 64, BodyStart(f), 56 * (n - 1), 56 * n);
      assert d[64 + 56 * (n - 1)..64 + 56 * n] == P.Encode(f.phdrs[n - 1]);
      P.EncodeDecodes(f.phdrs[n - 1]);
    }
  }

  // ---------- the theorem ----------

  lemma {:induction false} SectionsReadBack(f: ElfSpec)
    requires Encodable(f)
    ensures var d := Encode(f);
      && HeaderOk(d) && Shstrtab(d) == StrTab(SecNames(f)) && NamesInTable(AllShdrs(d), Shstrtab(d))
      && var m := SectionMap(AllShdrs(d), Shstrtab(d));
      && (forall k :: k in m <==> k in SecNames(f))
      && (forall i :: 0 <= i < |SecNames(f)| && LastOf(SecNames(f), i) ==> m[SecNames(f)[i]] == SectionOf(f, i))
  {
    hide Encode, StrTab, Concat, ShdrOffset, SymTab, NameAt, SectionMap, NameIndex, ContentOffset, HeaderError;
    hide Shoff, Shnum, Shstrndx;
    var d, names := Encode(f), SecNames(f);
    HeaderReadsBack(f);
    ShdrsReadBack(f, |AllSecs(f)|);
    var last := |AllSecs(f)| - 1;
    ContentsReadBack(f, last);
    assert SecNames(f)[last] == ".shstrtab";
    forall i | 0 <= i < |names| ensures AllShdrs(d)[i].nameIdx <= |StrTab(names)| && NameAt(StrTab(names), AllShdrs(d)[i].nameIdx) == names[i] {
      NameReadsBack(names, i);
    }
    SectionMapLastWins(AllShdrs(d), Shstrtab(d), names);
  }

  /** The symbol and string table sections are the writer's own. */
  lemma {:induction false} TablesFound(f: ElfSpec)
    requires Encodable(f)
    ensures var n, names := |f.secs|, SecNames(f);
      && names[n + 1] == ".symtab" && names[n + 2] == ".strtab" && LastOf(names, n + 1) && LastOf(names, n + 2)
      && SectionOf(f, n + 1).size as int == |SymTab(f)| && SectionOf(f, n + 1).entsize == 24
      && SectionOf(f, n + 2).size as int == |StrTab(SymNames(f))|
      && SectionOf(f, n + 1).offset as int == ContentOffset(f, n + 1)
        && SectionOf(f, n + 2).offset as int == ContentOffset(f, n + 2)
      && AllSecs(f)[n + 1].content == SymTab(f) && AllSecs(f)[n + 2].content == StrTab(SymNames(f))
  {
    hide StrTab, SymTab, NameIndex, ContentOffset;
  }

  lemma {:induction false} SymMapReadsBack(f: ElfSpec)
    requires TablesFit(f)
    ensures 24 * |AllSyms(f)| == |SymTab(f)|
    ensures var m := SymbolMap(SymTab(f), StrTab(SymNames(f)), 24, |AllSyms(f)|);
      && (forall k :: k in m <==> k != "" && k in SymNames(f))
      && (forall i :: 0 <= i < |SymNames(f)| && SymNames(f)[i] != "" && LastOf(SymNames(f), i) ==> m[SymNames(f)[i]] == AllSyms(f)[i].value)
  {
    hide StrTab, SymTab, SymbolMap, SymEntry;
    var values := seq(|AllSyms(f)|, i requires 0 <= i < |AllSyms(f)| => AllSyms(f)[i].value);
    SymReadsBack(f, 0);
    forall i | 0 <= i < |AllSyms(f)| ensures SymEntry(SymTab(f), StrTab(SymNames(f)), i, SymNames(f)[i], values[i]) {
      SymReadsBack(f, i);
    }
    SymbolMapLastWins(SymTab(f), StrTab(SymNames(f)), SymNames(f), values);
  }

  lemma {:induction false} SymbolsReadBack(f: ElfSpec, sections: map<string, Section>)
    requires Encodable(f)
    requires ".symtab" in sections && ".strtab" in sections
    requires sections[".symtab"] == SectionOf(f, |f.secs| + 1) && sections[".strtab"] == SectionOf(f, |f.secs| + 2)
    ensures var d := Encode(f);
      && SymtabReadable(d, sections)
      && sections[".symtab"].offset + sections[".symtab"].size < TWO64
      && sections[".strtab"].offset + sections[".strtab"].size < TWO64
      && var m := Symbols(d, sections);
      && (forall k :: k in m <==> k != "" && k in SymNames(f))
      && (forall i :: 0 <= i < |SymNames(f)| && SymNames(f)[i] != "" && LastOf(SymNames(f), i) ==> m[SymNames(f)[i]] == AllSyms(f)[i].value)
  {
    hide Encode, StrTab, SymTab, SymbolMap, AllSecs, ContentOffset, LastOf, AllSyms, SectionOf, SymNames, SecNames,
      TablesFit, Concat, Chunks, ShdrChunks, BodyStart, PhdrChunks, FileHeader;
    TablesFound(f);
    EncodeParts(f);
    ContentsReadBack(f, |f.secs| + 1);
    ContentsReadBack(f, |f.secs| + 2);
    var d := Encode(f);
    SymMapReadsBack(f);
  }

  /** The file is accepted, and the image is made of its header and tables. */
  lemma {:induction false} ParserAccepts(f: ElfSpec)
    requires Encodable(f)
    ensures var d := Encode(f);
      && HeaderOk(d) && NamesInTable(AllShdrs(d), Shstrtab(d))
      && var m := SectionMap(AllShdrs(d), Shstrtab(d));
      && SymtabReadable(d, m) && Indexable(d)
      && Parse(d) == Ok(Image(d, f.entry, 64, ShdrOffset(f), |f.phdrs|, |AllSecs(f)|, |AllSecs(f)| - 1, m,
        Symbols(d, m)))
  {
    hide Encode, StrTab, SymTab, NameAt, SymbolMap, SectionMap, AllSecs, ShdrOffset, ContentOffset, HeaderError,
      SectionOf, Symbols, SymtabReadable, NamesInTable, AllShdrs, Shoff, Shnum, Shstrndx, U64, U16, LastOf, SymNames,
      AllSyms, TablesFit, Concat, Chunks, ShdrChunks, BodyStart, PhdrChunks, FileHeader, SecNames;
    var d := Encode(f);
    HeaderReadsBack(f);
    EncodeParts(f);
    SectionsReadBack(f);
    TablesFound(f);
    SymbolsReadBack(f, SectionMap(AllShdrs(d), Shstrtab(d)));
  }

  /** `new` inverts the writer: it accepts the file, keeps the bytes, and its
      maps are last-occurrence-wins lookup over the section and symbol names,
      with empty symbol names skipped. */
  lemma {:induction false} ParserInvertsEncoder(f: ElfSpec)
    requires Encodable(f)
    ensures var d := Encode(f);
      && Indexable(d) && Parse(d).Ok?
      && var g := Parse(d).value;
      && g.data == d && g.entry == f.entry && g.phoff == 64 && g.phnum as int == |f.phdrs|
      && g.shoff == ShdrOffset(f) && g.shnum as int == |AllSecs(f)| && g.shstrndx as int == |AllSecs(f)| - 1
      && 64 + 56 * g.phnum <= |d| && P.Table(d, 64, g.phnum) == f.phdrs
      && (forall k :: k in g.sections <==> k in SecNames(f))
      && (forall i :: 0 <= i < |SecNames(f)| && LastOf(SecNames(f), i) ==> g.sections[SecNames(f)[i]] == SectionOf(f, i))
      && (forall k :: k in g.symbols <==> k != "" && k in SymNames(f))
      && (forall i :: 0 <= i < |SymNames(f)| && SymNames(f)[i] != "" && LastOf(SymNames(f), i) ==>
            g.symbols[SymNames(f)[i]] == AllSyms(f)[i].value)
  {
    hide Encode, StrTab, SymTab, NameAt, SymbolMap, SectionMap, AllSecs, ShdrOffset, ContentOffset, HeaderError,
      SectionOf, Symbols, SymtabReadable, NamesInTable, AllShdrs, Shoff, Shnum, Shstrndx, U64, U16, P.Table, LastOf,
      Parse, Indexable;
    ParserAccepts(f);
    SectionsReadBack(f);
    TablesFound(f);
    SymbolsReadBack(f, SectionMap(AllShdrs(Encode(f)), Shstrtab(Encode(f))));
    PhdrsReadBack(f, |f.phdrs|);
    assert f.phdrs[..|f.phdrs|] == f.phdrs;
  }
}
