/** A file that two runs of the patcher may turn into two different ones: two
    libraries' headers share an address and their names differ. */
module HashClash {
  import opened Bytes
  import opened Wrappers
  import opened Lists
  import opened Elf
  import opened Passes
  import opened Encoder
  import opened ReadBack
  import opened Binding
  import opened HashOrder
  import P = ProgramHeaders

  const STUB := SecSpec(".lib.stub", 1, 2, 0x1000, 0, Zeros(44), 44, 0, 0, 4, 0)
  const CLASH := ElfSpec(0, 0, 0, [], [STUB],
    [SymSpec("x_prx_header", 0, 0, 0, 0x1000, 0), SymSpec("y_prx_header", 0, 0, 0, 0x1000, 0),
     SymSpec("x_name", 0, 0, 0, 0x10, 0), SymSpec("y_name", 0, 0, 0, 0x20, 0)])

  lemma {:induction false} ClashNames()
    ensures SecNames(CLASH) == ["", ".lib.stub", ".symtab", ".strtab", ".shstrtab"]
    ensures SymNames(CLASH) == ["", "x_prx_header", "y_prx_header", "x_name", "y_name"]
  {
  }

  lemma {:induction false} ClashPlain()
    ensures NamesPlain(CLASH)
  {
    hide SecNames, SymNames, Plain;
    ClashNames();
    assert forall n :: n in SecNames(CLASH) ==> n in ["", ".lib.stub", ".symtab", ".strtab", ".shstrtab"];
    EachPlain();
  }

  lemma {:induction false} EachPlain()
    ensures Plain("") && Plain(".lib.stub") && Plain(".symtab") && Plain(".strtab") && Plain(".shstrtab")
    ensures Plain("x_prx_header") && Plain("y_prx_header") && Plain("x_name") && Plain("y_name")
  {
  }

  lemma {:induction false} ClashEncodable()
    ensures Encodable(CLASH)
  {
    hide Concat, StrTab, SymTab, NameIndex, SecNames, SymNames;
    ClashNames();
    ClashPlain();
    StrTabBound(SymNames(CLASH));
    StrTabBound(SecNames(CLASH));
    SymTabSize(CLASH);
    ClashBody();
  }

  lemma {:induction false} ClashBody()
    requires TablesFit(CLASH)
    ensures |Concat(Chunks(CLASH))| == 44 + |SymTab(CLASH)| + |StrTab(SymNames(CLASH))| + |StrTab(SecNames(CLASH))|
  {
    hide Concat, StrTab, SymTab;
    var cs := Chunks(CLASH);
    assert |cs| == 5 && |cs[0]| == 0 && |cs[1]| == 44 && |cs[2]| == |SymTab(CLASH)|;
    assert |cs[3]| == |StrTab(SymNames(CLASH))| && |cs[4]| == |StrTab(SecNames(CLASH))|;
    EmptyStart(cs);
    assert cs[..5] == cs;
    ConcatAt(cs, 0); ConcatAt(cs, 1); ConcatAt(cs, 2); ConcatAt(cs, 3); ConcatAt(cs, 4);
  }

  /** What the parser finds: no program headers, one header slot, two libraries at it. */
  ghost predicate Clash(g: Image) {
    && 108 <= |g.data| < TWO32 && g.phnum == 0 && g.phoff == 64
    && g.sections.Keys == {"", ".lib.stub", ".symtab", ".strtab", ".shstrtab"}
    && var s := g.sections[LIB_STUB];
    && s.addr == 0x1000 && s.size == 44 && s.offset + 44 <= |g.data|
    && g.symbols == map["x_prx_header" := 0x1000, "y_prx_header" := 0x1000, "x_name" := 0x10, "y_name" := 0x20]
  }

  lemma {:induction false} ClashSection(g: Image)
    requires Encodable(CLASH) && Indexable(Encode(CLASH)) && Parse(Encode(CLASH)) == Ok(g)
    ensures g.sections.Keys == {"", ".lib.stub", ".symtab", ".strtab", ".shstrtab"}
    ensures g.sections[LIB_STUB] == SectionOf(CLASH, 1)
  {
    hide Concat, StrTab, SymTab, NameIndex, SecNames, SymNames, Encodable, Encode, Parse, Indexable, SectionOf;
    ClashNames();
    ParserInvertsEncoder(CLASH);
    assert LastOf(SecNames(CLASH), 1);
  }

  lemma {:induction false} ClashStub()
    requires Encodable(CLASH)
    ensures var s := SectionOf(CLASH, 1);
      s.addr == 0x1000 && s.size == 44 && 64 <= s.offset && s.offset + 44 <= |Encode(CLASH)| < TWO32
  {
    hide Concat, StrTab, SymTab, NameIndex, Encode;
    OffsetFits(CLASH, 1);
    EncodeParts(CLASH);
  }

  lemma {:induction false} ClashSymbols(g: Image)
    requires Encodable(CLASH) && Indexable(Encode(CLASH)) && Parse(Encode(CLASH)) == Ok(g)
    ensures g.symbols == map["x_prx_header" := 0x1000, "y_prx_header" := 0x1000, "x_name" := 0x10, "y_name" := 0x20]
  {
    hide Concat, StrTab, SymTab, NameIndex, SecNames, SymNames, Encodable, Encode, Parse, Indexable, SectionOf;
    ClashNames();
    ParserInvertsEncoder(CLASH);
    var names := SymNames(CLASH);
    assert names[1] == "x_prx_header" && names[2] == "y_prx_header" && names[3] == "x_name" && names[4] == "y_name";
    assert LastOf(names, 1) && LastOf(names, 2) && LastOf(names, 3) && LastOf(names, 4);
    assert AllSyms(CLASH)[1].value == 0x1000 && AllSyms(CLASH)[2].value == 0x1000;
    assert AllSyms(CLASH)[3].value == 0x10 && AllSyms(CLASH)[4].value == 0x20;
  }

  lemma {:induction false} ClashParsed() returns (g: Image)
    ensures Encodable(CLASH) && Indexable(Encode(CLASH)) && Parse(Encode(CLASH)) == Ok(g) && Clash(g)
  {
    hide Concat, StrTab, SymTab, NameIndex, SecNames, SymNames, Encodable, Encode, Parse, Indexable, SectionOf, P.Table;
    ClashEncodable();
    ParserInvertsEncoder(CLASH);
    g := Parse(Encode(CLASH)).value;
    ClashSection(g);
    ClashStub();
    ClashSymbols(g);
  }

  // ---------- patching it ----------

  lemma {:induction false} ClashHeaders(g: Image)
    requires Clash(g)
    ensures forall h :: IsHeader(g.symbols, h) ==> h.addr == 0x1000
    ensures IsHeader(g.symbols, Header("x", 0x1000)) && IsHeader(g.symbols, Header("y", 0x1000))
  {
    assert "x" + "_prx_header" == "x_prx_header" && "y" + "_prx_header" == "y_prx_header";
    forall h | IsHeader(g.symbols, h) ensures h.addr == 0x1000 {
      assert |h.lib + "_prx_header"| >= 11 && |"x_name"| == |"y_name"| == 6;
    }
  }

  /** The two names are in conflict. */
  lemma {:induction false} ClashConflict(g: Image)
    requires Clash(g)
    ensures SharedOrApart(g) && HasStubs(g) && !NoConflict(g)
  {
    ClashHeaders(g);
    var a, b := Header("x", 0x1000), Header("y", 0x1000);
    assert a.lib + "_name" == "x_name" && b.lib + "_name" == "y_name";
    assert IsBound(g, a) && IsBound(g, b);
    assert PartValue(g.symbols, NamePart, a) == 0x10 && PartValue(g.symbols, NamePart, b) == 0x20;
    assert !HeadersAgree(g, a, b);
  }

  /** No header is kept or injected. */
  lemma {:induction false} ClashTable(g: Image)
    requires Clash(g)
    ensures TableFits(OsAbi(g)) && Clash(Phdrs(OsAbi(g))) && Phdrs(OsAbi(g)).symbols == g.symbols
  {
    hide LIB_STUB;
    var a := OsAbi(g);
    assert a.sections == g.sections && |a.data| == |g.data|;
    assert Injected(a.sections) == [] && Kept(a.data, a.phoff, 0) == [];
    assert NewSlots(a) == [];
  }

  lemma {:induction false} ClashPatchable(g: Image)
    requires Clash(g)
    ensures Patchable(g) && OpdFits(g)
  {
    hide TableFits, Phdrs;
    ClashTable(g);
  }

  /** Only binding depends on the order: the passes behind it find nothing to do. */
  lemma {:induction false} ClashPatched(g: Image, order: seq<string>)
    requires Clash(g) && Enumerates(order, g.symbols)
    ensures Patchable(g) && OpdFits(g) && TableFits(OsAbi(g)) && Clash(Phdrs(OsAbi(g)))
    ensures Enumerates(order, Phdrs(OsAbi(g)).symbols) && PatchAll(g, order) == LibStubs(Phdrs(OsAbi(g)), order)
  {
    hide LibStubs, NoDup, TableFits, Phdrs, OsAbi, Patchable;
    ClashTable(g);
    ClashPatchable(g);
    var h := LibStubs(Phdrs(OsAbi(g)), order);
    assert ".opd" !in h.sections && ".sys_proc_prx_param" !in h.sections;
    assert Opd(h) == h && PrxParams(h) == h;
  }

  lemma {:induction false} ClashDiffers(g: Image) returns (order: seq<string>, other: seq<string>)
    requires Clash(g)
    ensures Patchable(g) && OpdFits(g) && Enumerates(order, g.symbols) && Enumerates(other, g.symbols)
    ensures PatchAll(g, order).data != PatchAll(g, other).data
  {
    hide LibStubs, NoDup, NoConflict, SharedOrApart, PatchAll, OsAbi, Phdrs;
    var some := Listing(g.symbols.Keys);
    ClashPatched(g, some);
    var h := Phdrs(OsAbi(g));
    ClashConflict(h);
    HashOrderIrrelevantExactly(h);
    order, other :| Enumerates(order, h.symbols) && Enumerates(other, h.symbols) && LibStubs(h, order) != LibStubs(h, other);
    ClashPatched(g, order);
    ClashPatched(g, other);
  }

  /** One file, two orders in which the hash map may list its symbols, and two
      results. */
  lemma {:induction false} SharedAddressDependsOnOrder() returns (d: seq<byte>, order: seq<string>, other: seq<string>)
    ensures Indexable(d) && Parse(d).Ok? && Patchable(Parse(d).value)
    ensures Enumerates(order, Parse(d).value.symbols) && Enumerates(other, Parse(d).value.symbols)
    ensures PatchFile(d, order).Ok? && PatchFile(d, other).Ok? && PatchFile(d, order) != PatchFile(d, other)
  {
    hide Parse, Indexable, Encode, Encodable, Clash, NoDup, Patchable, PatchAll, OpdFits;
    var g := ClashParsed();
    d := Encode(CLASH);
    order, other := ClashDiffers(g);
  }
}
