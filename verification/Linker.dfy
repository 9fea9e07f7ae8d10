/** A specification-level linker: it relocates the assembled sections and writes
    them, at any disjoint addresses below 2^32, and the rest of a program into
    one ELF file.
    Its output meets every assumption of the import theorems. */
module Linker {
  import opened Bytes
  import opened Wrappers
  import opened Lists
  import opened Elf
  import opened Encoder
  import opened ReadBack
  import opened Passes
  import P = ProgramHeaders
  import opened Locality
  import opened LoadImage
  import opened Assembly
  import opened Linking
  import B = Binding
  import opened Config

  /** The other sections and symbols of the program. */
  datatype Program = Program(osabi: byte, entry: u64, eflags: u32, secs: seq<SecSpec>, syms: seq<SymSpec>)

  /** The linker's choices for the assembled file: the order of its sections,
      their addresses, the padding before each, the order of its symbols, and
      the TOC base. */
  datatype Plan = Plan(names: seq<string>, addrs: map<string, u64>, pads: map<string, nat>, labels: seq<string>, toc: u64)

  /** The plan places every section of the object that has bytes, gives every
      section an address and lists every label once. */
  ghost predicate Covers(o: Object, plan: Plan) {
    && NoDup(plan.names) && (forall s :: s in plan.names ==> s in o.contents && s in plan.pads)
    && (forall s :: Placed(o, s) ==> s in plan.names)
    && (forall s :: s in o.contents ==> s in plan.addrs && plan.addrs[s] + |o.contents[s]| < TWO32)
    && NoDup(plan.labels) && (forall l :: l in plan.labels <==> l in o.labels)
  }

  /** How far each label is from the TOC base. */
  ghost function LabelOffsets(o: Object, plan: Plan): map<string, int>
    requires Covers(o, plan)
  {
    map l | l in o.labels && o.labels[l].sec in o.contents :: plan.addrs[o.labels[l].sec] + o.labels[l].off - plan.toc
  }

  /** The relocated contents of a section. */
  ghost function Relocated(o: Object, plan: Plan, s: string): (r: seq<byte>)
    requires Covers(o, plan) && s in o.contents
    ensures |r| == |o.contents[s]|
  {
    seq(|o.contents[s]|, k requires 0 <= k < |o.contents[s]| => LinkedByte(o, LabelOffsets(o, plan), s, k))
  }

  /** SHF_ALLOC: the section occupies memory. */
  predicate Allocated(s: SecSpec) { (s.flags / 2) % 2 == 1 }

  /** SHF_ALLOC with SHF_EXECINSTR or SHF_WRITE. */
  function Flags(s: string): u64 { if s == TEXT_SECTION then 6 else 3 }

  ghost function Secs(o: Object, plan: Plan, prog: Program): (r: seq<SecSpec>)
    requires Covers(o, plan)
    ensures |r| == |plan.names| + |prog.secs|
  {
    seq(|plan.names|, i requires 0 <= i < |plan.names| =>
      var s := plan.names[i];
      SecSpec(s, 1, Flags(s), plan.addrs[s], plan.pads[s], Relocated(o, plan, s), |o.contents[s]|, 0, 0, 4, 0))
    + prog.secs
  }

  function Value(o: Object, plan: Plan, l: string): u64
    requires l in o.labels
  {
    var p := o.labels[l];
    if p.sec in plan.addrs then (plan.addrs[p.sec] + p.off) % TWO64 else 0
  }

  function Syms(o: Object, plan: Plan, prog: Program): (r: seq<SymSpec>)
    requires Covers(o, plan)
    ensures |r| == |plan.labels| + |prog.syms|
  {
    seq(|plan.labels|, i requires 0 <= i < |plan.labels| =>
      SymSpec(plan.labels[i], 0x10, 0, 1, Value(o, plan, plan.labels[i]), 0))
    + prog.syms
  }

  /** Two program headers a PS3 does not know, as linkers emit them. */
  const STACK := P.Phdr(0x6474_E551, 6, 0, 0, 0, 0, 0, 16)
  const RELRO := P.Phdr(0x6474_E552, 4, 0, 0, 0, 0, 0, 1)

  /** The file without its load headers; their number is already right. */
  ghost function Skeleton(o: Object, plan: Plan, prog: Program): ElfSpec
    requires Covers(o, plan)
  {
    var secs := Secs(o, plan, prog);
    ElfSpec(prog.osabi, prog.entry, prog.eflags, seq(|secs| + 2, _ => STACK), secs, Syms(o, plan, prog))
  }

  /** One header per section: PT_LOAD when it occupies memory, else PT_NULL. */
  function Loads(f: ElfSpec): (r: seq<P.Phdr>)
    requires Encodable(f)
    ensures |r| == |f.secs|
  {
    seq(|f.secs|, i requires 0 <= i < |f.secs| => LoadOf(f, i))
  }

  function LoadOf(f: ElfSpec, i: nat): P.Phdr
    requires Encodable(f) && i < |f.secs|
  {
    var s := f.secs[i];
    OffsetFits(f, i + 1);
    P.Phdr(if Allocated(s) then PT_LOAD else 0, if s.flags == 6 then 5 else 6, ContentOffset(f, i + 1), s.addr, s.addr, |s.content|, s.size, 4)
  }

  ghost function Link(o: Object, plan: Plan, prog: Program): ElfSpec
    requires Covers(o, plan) && Encodable(Skeleton(o, plan, prog))
  {
    var f := Skeleton(o, plan, prog);
    f.(phdrs := [STACK, RELRO] + Loads(f))
  }

  /** The sections in memory occupy disjoint address ranges below 2^64. */
  ghost predicate Spread(secs: seq<SecSpec>) {
    && (forall i, j :: (0 <= i < |secs| && 0 <= j < |secs| && i != j && Allocated(secs[i]) && Allocated(secs[j])) ==>
          secs[i].addr + secs[i].size <= secs[j].addr || secs[j].addr + secs[j].size <= secs[i].addr)
    && (forall i :: 0 <= i < |secs| ==> secs[i].addr + secs[i].size < TWO64 && |secs[i].content| <= secs[i].size)
  }

  /** What the rest of the program must not do: reuse a section or label name,
      overlap an address range, leave `.opd` without its bytes, or put a
      `_prx_header` symbol into `.lib.stub`. */
  ghost predicate Compatible(o: Object, plan: Plan, prog: Program)
    requires Covers(o, plan)
  {
    var f := Skeleton(o, plan, prog);
    && Encodable(f) && NoDup(SecNames(f)) && Spread(f.secs)
    && (forall i :: 0 <= i < |prog.secs| ==> prog.secs[i].name != HEADER_SECTION)
    && (forall i :: 0 <= i < |prog.secs| && prog.secs[i].name == ".opd" ==> prog.secs[i].size == |prog.secs[i].content|)
    && (forall i :: 0 <= i < |prog.syms| ==> prog.syms[i].name !in o.labels && ClearOfHeaders(o, plan, prog.syms[i]))
  }

  ghost predicate ClearOfHeaders(o: Object, plan: Plan, s: SymSpec)
    requires Covers(o, plan)
  {
    HEADER_SECTION in o.contents && StripSuffix(s.name, "_prx_header").Some? ==>
      !(plan.addrs[HEADER_SECTION] <= s.value < plan.addrs[HEADER_SECTION] + |o.contents[HEADER_SECTION]|)
  }

  // ---------- the layout does not depend on the load headers ----------

  lemma {:induction false} SameLayout(f: ElfSpec, phdrs: seq<P.Phdr>)
    requires Encodable(f) && |phdrs| == |f.phdrs|
    ensures var g := f.(phdrs := phdrs);
      && Encodable(g) && AllSecs(g) == AllSecs(f) && AllSyms(g) == AllSyms(f)
      && SymNames(g) == SymNames(f) && SecNames(g) == SecNames(f)
      && (forall i :: 0 <= i < |AllSecs(f)| ==> ContentOffset(g, i) == ContentOffset(f, i))
  {
    var g := f.(phdrs := phdrs);
    assert SymNames(g) == SymNames(f) && SecNames(g) == SecNames(f);
    hide Concat, StrTab, NameIndex;
    assert SymChunks(g) == SymChunks(f);
    assert AllSecs(g) == AllSecs(f);
    assert Chunks(g) == Chunks(f);
  }

  /** Section contents follow one another in the file. */
  lemma {:induction false} ContentsInOrder(f: ElfSpec, i: nat, j: nat)
    requires Encodable(f) && i < j < |AllSecs(f)|
    ensures ContentOffset(f, i) + |AllSecs(f)[i].content| <= ContentOffset(f, j)
    decreases j - i
  {
    hide Concat, AllSecs, StrTab, SymTab;
    ConcatAt(Chunks(f), i);
    if i + 1 < j {
      ContentsInOrder(f, i + 1, j);
    }
  }

  lemma {:induction false} UserSection(f: ElfSpec, i: nat)
    requires TablesFit(f) && i < |f.secs|
    ensures i + 1 < |AllSecs(f)| && AllSecs(f)[i + 1] == f.secs[i] && SecNames(f)[i + 1] == f.secs[i].name
  {
    hide StrTab, SymTab;
  }

  // ---------- the load headers ----------

  /** An address one section covers is loaded from that section. */
  lemma {:induction false} UniqueLoad(phs: seq<P.Phdr>, j: nat, v: nat)
    requires j < |phs| && LoadImage.Covers(phs[j], v) && v - phs[j].vaddr < phs[j].filesz
    requires forall i :: 0 <= i < |phs| && i != j ==> !LoadImage.Covers(phs[i], v)
    ensures FileOffset(phs, v) == Some(phs[j].offset + (v - phs[j].vaddr))
  {
    if j < |phs| - 1 { UniqueLoad(phs[..|phs| - 1], j, v); }
  }

  lemma {:induction false} FewLoads(phs: seq<P.Phdr>)
    requires |phs| >= 2 && phs[0].kind != PT_LOAD && phs[1].kind != PT_LOAD
    ensures |P.SonyTable(phs)| <= |phs| - 2
  {
    hide SonyFlags;
    if |phs| == 2 {
      assert phs[..1][..0] == [];
      assert P.SonyTable(phs[..1]) == [];
    } else {
      FewLoads(phs[..|phs| - 1]);
    }
  }

  // ---------- the linked file as the patcher reads it ----------

  /** The patcher's image of the linked file. */
  ghost function Output(o: Object, plan: Plan, prog: Program): Image
    requires Covers(o, plan) && Compatible(o, plan, prog)
  {
    LinkEncodable(o, plan, prog);
    ParserInvertsEncoder(Link(o, plan, prog));
    Parse(Encode(Link(o, plan, prog))).value
  }

  lemma {:induction false} LinkEncodable(o: Object, plan: Plan, prog: Program)
    requires Covers(o, plan) && Compatible(o, plan, prog)
    ensures var e, f := Skeleton(o, plan, prog), Link(o, plan, prog);
      && Encodable(e) && Encodable(f) && f.secs == e.secs && f.syms == e.syms && SecNames(f) == SecNames(e)
        && NoDup(SecNames(f))
      && |f.phdrs| == |f.secs| + 2 && f.phdrs[0] == STACK && f.phdrs[1] == RELRO
      && forall i :: 0 <= i < |f.secs| ==> f.phdrs[i + 2] == LoadOf(f, i)
  {
    hide Concat, StrTab, SymTab, NameIndex, ContentOffset, Secs, Syms, NoDup, SecNames, AllSecs, Spread, ShdrOffset;
    var e, f := Skeleton(o, plan, prog), Link(o, plan, prog);
    SameLayout(e, f.phdrs);
    forall i | 0 <= i < |f.secs| ensures f.phdrs[i + 2] == LoadOf(f, i) {
      UserSection(e, i);
      assert ContentOffset(f, i + 1) == ContentOffset(e, i + 1);
    }
  }

  /** Where section `i` of the program is in the file. */
  ghost function At(o: Object, plan: Plan, prog: Program, i: nat): nat
    requires Covers(o, plan) && Compatible(o, plan, prog) && i < |Secs(o, plan, prog)|
  {
    LinkEncodable(o, plan, prog);
    ContentOffset(Link(o, plan, prog), i + 1)
  }

  /** A section's header, bytes and load addresses in the output. */
  lemma {:induction false} SectionInOutput(o: Object, plan: Plan, prog: Program, i: nat)
    requires Covers(o, plan) && Compatible(o, plan, prog) && i < |Secs(o, plan, prog)|
    ensures var g, s, at := Output(o, plan, prog), Secs(o, plan, prog)[i], At(o, plan, prog, i);
      && s.name in g.sections && g.sections[s.name].addr == s.addr && g.sections[s.name].size == s.size
      && g.sections[s.name].offset as int == at
      && 64 + 56 * g.phnum <= at && at + |s.content| <= |g.data| && g.data[at..at + |s.content|] == s.content
  {
    hide Encode, Concat, StrTab, SymTab, NameIndex, Secs, Syms, Spread, Compatible, Covers, AllSecs, SecNames, Chunks,
      Link, Parse, Indexable, ShdrOffset, Skeleton;
    LinkEncodable(o, plan, prog);
    var f := Link(o, plan, prog);
    ParserInvertsEncoder(f);
    SkeletonSecs(o, plan, prog);
    UserSection(f, i);
    ContentsReadBack(f, i + 1);
    assert LastOf(SecNames(f), i + 1);
  }

  lemma {:induction false} OutputHeader(o: Object, plan: Plan, prog: Program)
    requires Covers(o, plan) && Compatible(o, plan, prog)
    ensures Encodable(Skeleton(o, plan, prog))
    ensures var g, f := Output(o, plan, prog), Link(o, plan, prog);
      && g.phoff == 64 && g.phnum as int == |f.phdrs| == |Secs(o, plan, prog)| + 2
      && |g.data| >= 64 && U64(g.data[32..40]) == 64 && OldTableFits(g) && BeforeTable(g) == f.phdrs && |g.data| < TWO32
  {
    hide Encode, Concat, StrTab, SymTab, NameIndex, Secs, Syms, Spread, Compatible, Covers, AllSecs, SecNames, Chunks,
      Link, Parse, Indexable, P.Table, ShdrOffset, Skeleton;
    LinkEncodable(o, plan, prog);
    var f := Link(o, plan, prog);
    ParserInvertsEncoder(f);
    HeaderReadsBack(f);
    EncodeParts(f);
    assert |AllSecs(f)| == |f.secs| + 4;
    assert f.secs == Secs(o, plan, prog) by { SkeletonSecs(o, plan, prog); }
  }

  lemma {:induction false} OutputParses(o: Object, plan: Plan, prog: Program)
    requires Covers(o, plan) && Compatible(o, plan, prog)
    ensures Encodable(Skeleton(o, plan, prog)) && Encodable(Link(o, plan, prog))
    ensures var d := Encode(Link(o, plan, prog));
      Indexable(d) && Parse(d) == Ok(Output(o, plan, prog)) && Output(o, plan, prog).data == d
  {
    hide Encode, Concat, StrTab, SymTab, NameIndex, Secs, Syms, Spread, Compatible, Covers, AllSecs, SecNames, Chunks,
      Link, Parse, Indexable, P.Table, ShdrOffset, Skeleton;
    LinkEncodable(o, plan, prog);
    ParserInvertsEncoder(Link(o, plan, prog));
  }

  lemma {:induction false} SkeletonSecs(o: Object, plan: Plan, prog: Program)
    requires Covers(o, plan)
    ensures Skeleton(o, plan, prog).secs == Secs(o, plan, prog)
    ensures Skeleton(o, plan, prog).syms == Syms(o, plan, prog)
  {
    hide Secs, Syms;
  }

  /** What the linker chose, or what the program brought. */
  lemma {:induction false} SecChoice(o: Object, plan: Plan, prog: Program, i: nat)
    requires Covers(o, plan) && i < |Secs(o, plan, prog)|
    ensures var s := Secs(o, plan, prog)[i];
      if i < |plan.names| then
        var n := plan.names[i];
        s.name == n && n in o.contents && n in plan.addrs && s.addr == plan.addrs[n]
          && s.content == Relocated(o, plan, n)
        && s.size == |s.content| && Allocated(s)
      else s == prog.secs[i - |plan.names|]
  {
  }

  /** An address a section's bytes occupy is loaded from the section's bytes. */
  lemma {:induction false} LoadedByte(o: Object, plan: Plan, prog: Program, i: nat, k: nat)
    requires Covers(o, plan) && Compatible(o, plan, prog)
    requires i < |Secs(o, plan, prog)| && k < |Secs(o, plan, prog)[i].content| && Allocated(Secs(o, plan, prog)[i])
    ensures OldTableFits(Output(o, plan, prog))
    ensures FileOffset(BeforeTable(Output(o, plan, prog)), Secs(o, plan, prog)[i].addr + k)
        == Some(At(o, plan, prog, i) + k)
  {
    hide Encodable, BeforeTable, Output, Secs, ContentOffset, Link, FileOffset, SecNames, NoDup, Covers;
    OutputHeader(o, plan, prog);
    LinkEncodable(o, plan, prog);
    SkeletonSecs(o, plan, prog);
    var f, v := Link(o, plan, prog), Secs(o, plan, prog)[i].addr + k;
    assert f.phdrs[i + 2] == LoadOf(f, i);
    forall j | 0 <= j < |f.phdrs| && j != i + 2 ensures !LoadImage.Covers(f.phdrs[j], v) {
      if j >= 2 { assert f.phdrs[(j - 2) + 2] == LoadOf(f, j - 2); }
    }
    UniqueLoad(f.phdrs, i + 2, v);
  }

  /** Every section the patcher finds, other than the writer's own, was given. */
  lemma {:induction false} SectionSource(o: Object, plan: Plan, prog: Program, name: string)
    requires Covers(o, plan) && Compatible(o, plan, prog) && name in Output(o, plan, prog).sections
    requires name !in ["", ".symtab", ".strtab", ".shstrtab"]
    ensures exists i :: 0 <= i < |Secs(o, plan, prog)| && Secs(o, plan, prog)[i].name == name
  {
    hide Encodable, Encode, Concat, StrTab, SymTab, NameIndex, Secs, Syms, Spread, Compatible, Covers, AllSecs,
      Chunks, Link, Parse, Indexable, ShdrOffset, Skeleton, SecNames, P.Table, NoDup, LastOf, SectionOf;
    LinkEncodable(o, plan, prog);
    ParserInvertsEncoder(Link(o, plan, prog));
    SkeletonSecs(o, plan, prog);
    UserName(Link(o, plan, prog), name);
  }

  lemma {:induction false} UserName(f: ElfSpec, name: string)
    requires name in SecNames(f) && name !in ["", ".symtab", ".strtab", ".shstrtab"]
    ensures exists i :: 0 <= i < |f.secs| && f.secs[i].name == name
  {
    var i :| 0 <= i < |SecNames(f)| && SecNames(f)[i] == name;
    assert f.secs[i - 1].name == name;
  }

  // ---------- there is room for what the passes write ----------

  lemma {:induction false} TableRoom(o: Object, plan: Plan, prog: Program)
    requires Covers(o, plan) && Compatible(o, plan, prog)
    ensures var g := Output(o, plan, prog);
      OldTableFits(g) && TableFits(g) && |NewSlots(g)| < 0x1_0000 && Slots(g) == g.phnum
  {
    hide Encodable, Output, Secs, Link, Covers, Compatible, P.Table, Kept, Injected, P.DecodeAll, P.SonyTable, Skeleton;
    OutputHeader(o, plan, prog);
    LinkEncodable(o, plan, prog);
    var g := Output(o, plan, prog);
    P.KeptDecodes(g.data, g.phoff, g.phnum);
    FewLoads(Link(o, plan, prog).phdrs);
  }

  lemma {:induction false} SegmentsInFile(o: Object, plan: Plan, prog: Program)
    requires Covers(o, plan) && Compatible(o, plan, prog)
    ensures var g := Output(o, plan, prog); OldTableFits(g) && Loadable(BeforeTable(g), |g.data|)
  {
    hide Encodable, Output, Secs, Link, Covers, Compatible, BeforeTable, ContentOffset, SecNames, NoDup, Skeleton;
    OutputHeader(o, plan, prog);
    LinkEncodable(o, plan, prog);
    SkeletonSecs(o, plan, prog);
    var g, f := Output(o, plan, prog), Link(o, plan, prog);
    forall p | p in f.phdrs && p.kind == PT_LOAD ensures p.offset + p.filesz <= |g.data| {
      var j :| 0 <= j < |f.phdrs| && f.phdrs[j] == p;
      assert f.phdrs[(j - 2) + 2] == LoadOf(f, j - 2);
      SectionInOutput(o, plan, prog, j - 2);
    }
  }

  /** The sections the passes use are in the file and do not wrap around. */
  lemma {:induction false} SectionRoom(o: Object, plan: Plan, prog: Program, name: string)
    requires Covers(o, plan) && Compatible(o, plan, prog) && name in Output(o, plan, prog).sections
    requires name == ".opd" || name == LIB_STUB || name == ".lib.ent"
    ensures var g := Output(o, plan, prog);
      && g.sections[name].addr + g.sections[name].size < TWO64
      && (name != ".lib.ent" ==> g.sections[name].offset + g.sections[name].size <= |g.data|)
  {
    hide Encodable, Output, Secs, Link, Covers, SecNames, NoDup, At;
    SectionSource(o, plan, prog, name);
    var i :| 0 <= i < |Secs(o, plan, prog)| && Secs(o, plan, prog)[i].name == name;
    SectionInOutput(o, plan, prog, i);
    SecChoice(o, plan, prog, i);
    SkeletonSecs(o, plan, prog);
  }

  lemma {:induction false} PassRoom(o: Object, plan: Plan, prog: Program)
    requires Covers(o, plan) && Compatible(o, plan, prog)
    ensures OpdFits(Output(o, plan, prog)) && NoWrap(Output(o, plan, prog))
  {
    hide Output, Covers, Compatible;
    var g := Output(o, plan, prog);
    OutputHeader(o, plan, prog);
    if ".opd" in g.sections { SectionRoom(o, plan, prog, ".opd"); }
    if LIB_STUB in g.sections { SectionRoom(o, plan, prog, LIB_STUB); }
    if ".lib.ent" in g.sections { SectionRoom(o, plan, prog, ".lib.ent"); }
  }

  // ---------- symbols ----------

  /** A name that occurs has a last occurrence. */
  lemma {:induction false} LastOccurrence(names: seq<string>, name: string)
    requires name in names
    ensures exists i :: 0 <= i < |names| && names[i] == name && LastOf(names, i)
  {
    var n := |names| - 1;
    if names[n] == name {
      assert LastOf(names, n);
    } else {
      assert name in names[..n];
      LastOccurrence(names[..n], name);
      var i :| 0 <= i < n && names[..n][i] == name && LastOf(names[..n], i);
      assert LastOf(names, i);
    }
  }

  /** A symbol value in the image is that of a label or of a program symbol. */
  lemma {:induction false} SymbolSource(o: Object, plan: Plan, prog: Program, l: string)
    requires Covers(o, plan) && Compatible(o, plan, prog) && l != ""
    requires l in Output(o, plan, prog).symbols || l in o.labels
    ensures l in Output(o, plan, prog).symbols
    ensures var v := Output(o, plan, prog).symbols[l];
      if l in o.labels then v == Value(o, plan, l)
      else exists j :: 0 <= j < |prog.syms| && prog.syms[j].name == l && prog.syms[j].value == v
  {
    hide Encodable, Encode, Concat, StrTab, SymTab, NameIndex, Secs, Spread, Link, Parse, Indexable, ShdrOffset,
      Skeleton, SecNames, P.Table, NoDup, LastOf, SectionOf, Value, Covers, Compatible, Syms;
    LinkEncodable(o, plan, prog);
    var f := Link(o, plan, prog);
    ParserInvertsEncoder(f);
    SkeletonSecs(o, plan, prog);
    var names := SymNames(f);
    if l in o.labels {
      SymChoices(o, plan, prog, l);
      var k :| 0 <= k < |Syms(o, plan, prog)| && Syms(o, plan, prog)[k].name == l;
      assert names[k + 1] == l;
    }
    LastOccurrence(names, l);
    var i :| 0 <= i < |names| && names[i] == l && LastOf(names, i);
    SymChoice(o, plan, prog, i - 1);
  }

  lemma {:induction false} SymChoices(o: Object, plan: Plan, prog: Program, l: string)
    requires Covers(o, plan) && l in o.labels
    ensures exists i :: 0 <= i < |Syms(o, plan, prog)| && Syms(o, plan, prog)[i].name == l
  {
    hide Value;
    var i :| 0 <= i < |plan.labels| && plan.labels[i] == l;
    assert Syms(o, plan, prog)[i].name == l;
  }

  lemma {:induction false} SymChoice(o: Object, plan: Plan, prog: Program, i: nat)
    requires Covers(o, plan) && Compatible(o, plan, prog) && i < |Syms(o, plan, prog)|
    ensures var s := Syms(o, plan, prog)[i];
      if s.name in o.labels then s.value == Value(o, plan, s.name)
      else exists j :: 0 <= j < |prog.syms| && prog.syms[j].name == s.name && prog.syms[j].value == s.value
  {
    hide Value, Skeleton, Encodable, SecNames, Spread;
    if i >= |plan.labels| { assert prog.syms[i - |plan.labels|] == Syms(o, plan, prog)[i]; }
  }

  // ---------- the assumptions of the import theorems ----------

  /** The position of a section in the plan. */
  function IndexOf(names: seq<string>, s: string): (i: nat)
    requires s in names
    ensures i < |names| && names[i] == s
  {
    if names[|names| - 1] == s then |names| - 1 else IndexOf(names[..|names| - 1], s)
  }

  /** Where the assembled sections went; one without bytes is nowhere in the file. */
  ghost function Seats(o: Object, plan: Plan, prog: Program): (r: Placement)
    requires Covers(o, plan) && Compatible(o, plan, prog)
    ensures r.at.Keys == o.contents.Keys && r.toc == plan.toc
  {
    Placement(
      map s | s in o.contents ::
        Seat(plan.addrs[s], if s in plan.names then At(o, plan, prog, IndexOf(plan.names, s)) else 0),
      plan.toc)
  }

  lemma {:induction false} SameOffsets(o: Object, plan: Plan, prog: Program)
    requires Covers(o, plan) && Compatible(o, plan, prog)
    ensures Offsets(o, Seats(o, plan, prog)) == LabelOffsets(o, plan)
  {
    hide Compatible, At, NoDup, IndexOf;
  }

  /** The section and the seat of a placed section. */
  lemma {:induction false} SeatOf(o: Object, plan: Plan, prog: Program, s: string)
    requires Covers(o, plan) && Compatible(o, plan, prog) && s in plan.names
    ensures s in o.contents && Seats(o, plan, prog).at[s].addr == plan.addrs[s]
    ensures plan.addrs[s] + |o.contents[s]| < TWO32
    ensures var i := IndexOf(plan.names, s);
      && Secs(o, plan, prog)[i].name == s && Secs(o, plan, prog)[i].addr == plan.addrs[s]
      && Secs(o, plan, prog)[i].content == Relocated(o, plan, s) && Secs(o, plan, prog)[i].size == |o.contents[s]|
      && Allocated(Secs(o, plan, prog)[i])
      && Seats(o, plan, prog).at[s].off == At(o, plan, prog, i)
  {
    hide Secs, Compatible, At;
    SecChoice(o, plan, prog, IndexOf(plan.names, s));
  }

  /** A placed section lies in the file behind the program headers. */
  lemma {:induction false} SeatInFile(o: Object, plan: Plan, prog: Program, s: string)
    requires Covers(o, plan) && Compatible(o, plan, prog) && s in plan.names
    ensures s in o.contents
    ensures var g, t := Output(o, plan, prog), Seats(o, plan, prog).at[s];
      && OldTableFits(g) && 64 + 56 * g.phnum <= t.off && t.off + |o.contents[s]| <= |g.data|
      && t.addr + |o.contents[s]| < TWO32
  {
    hide Output, Secs, Compatible, At, BeforeTable, Covers, IndexOf, Seats;
    OutputHeader(o, plan, prog);
    SeatOf(o, plan, prog, s);
    SectionInOutput(o, plan, prog, IndexOf(plan.names, s));
  }

  lemma {:induction false} OutputSeated(o: Object, plan: Plan, prog: Program, s: string)
    requires Covers(o, plan) && Compatible(o, plan, prog) && s in o.contents
    ensures var g := Output(o, plan, prog); OldTableFits(g) && Seated(g, o, Seats(o, plan, prog), s)
  {
    hide Output, Secs, Compatible, At, BeforeTable, FileOffset, NoDup, IndexOf;
    OutputHeader(o, plan, prog);
    if s in plan.names {
      OutputLoads(o, plan, prog, s);
    } else {
      assert !Placed(o, s);
    }
  }

  lemma {:induction false} OutputLoads(o: Object, plan: Plan, prog: Program, s: string)
    requires Covers(o, plan) && Compatible(o, plan, prog) && s in plan.names
    ensures var g := Output(o, plan, prog); s in o.contents && OldTableFits(g) && Seated(g, o, Seats(o, plan, prog), s)
  {
    hide Output, Compatible, BeforeTable, FileOffset, Covers, Seats, LinkedByte, Offsets, OldTableFits;
    SeatInFile(o, plan, prog, s);
    var g, m := Output(o, plan, prog), Seats(o, plan, prog);
    forall k | 0 <= k < |o.contents[s]| ensures ByteSeated(g, o, m, s, k) {
      OutputLoad(o, plan, prog, s, k);
    }
  }

  lemma {:induction false} OutputLoad(o: Object, plan: Plan, prog: Program, s: string, k: nat)
    requires Covers(o, plan) && Compatible(o, plan, prog) && s in plan.names && s in o.contents && k < |o.contents[s]|
    ensures var g, t := Output(o, plan, prog), Seats(o, plan, prog).at[s];
      && OldTableFits(g) && t.off + k < |g.data|
        && g.data[t.off + k] == LinkedByte(o, Offsets(o, Seats(o, plan, prog)), s, k)
      && FileOffset(BeforeTable(g), t.addr + k) == Some(t.off + k)
  {
    hide Output, Secs, Compatible, At, BeforeTable, FileOffset, Covers, IndexOf, Seats;
    OutputHeader(o, plan, prog);
    SeatOf(o, plan, prog, s);
    var g, i, c, t := Output(o, plan, prog), IndexOf(plan.names, s), Relocated(o, plan, s), Seats(o, plan, prog).at[s];
    SectionInOutput(o, plan, prog, i);
    SameOffsets(o, plan, prog);
    assert g.data[t.off..t.off + |c|][k] == c[k];
    LoadedByte(o, plan, prog, i, k);
  }

  /** Placed sections keep apart in memory and in the file, and behind the headers. */
  lemma {:induction false} SeatsApart(o: Object, plan: Plan, prog: Program, s: string, t: string)
    requires Covers(o, plan) && Compatible(o, plan, prog) && s in plan.names && t in plan.names && s != t
    ensures var m, a, b := Seats(o, plan, prog).at, |o.contents[s]|, |o.contents[t]|;
      Apart(m[s].addr, m[s].addr + a, m[t].addr, m[t].addr + b) && Apart(m[s].off, m[s].off + a, m[t].off, m[t].off + b)
  {
    hide Output, Secs, At, Seats, Encodable, SecNames, NoDup, IndexOf, Covers, Skeleton;
    SeatOf(o, plan, prog, s);
    SeatOf(o, plan, prog, t);
    SkeletonSecs(o, plan, prog);
    FileOrder(o, plan, prog, IndexOf(plan.names, s), IndexOf(plan.names, t));
  }

  lemma {:induction false} FileOrder(o: Object, plan: Plan, prog: Program, i: nat, j: nat)
    requires Covers(o, plan) && Compatible(o, plan, prog) && i < |Secs(o, plan, prog)| && j < |Secs(o, plan, prog)|
    requires i != j
    ensures var x, y := At(o, plan, prog, i), At(o, plan, prog, j);
      Apart(x, x + |Secs(o, plan, prog)[i].content|, y, y + |Secs(o, plan, prog)[j].content|)
  {
    hide Secs, SecNames, NoDup, Covers, Skeleton, Compatible, ContentOffset, AllSecs, Link, StrTab, SymTab;
    LinkEncodable(o, plan, prog);
    SkeletonSecs(o, plan, prog);
    var f := Link(o, plan, prog);
    UserSection(f, i);
    UserSection(f, j);
    if i < j { ContentsInOrder(f, i + 1, j + 1); } else { ContentsInOrder(f, j + 1, i + 1); }
  }

  lemma {:induction false} OutputLabel(o: Object, plan: Plan, prog: Program, l: string)
    requires Covers(o, plan) && Compatible(o, plan, prog) && LabelsInside(o) && l in o.labels && l != ""
    ensures var g, m := Output(o, plan, prog), Seats(o, plan, prog).at;
      o.labels[l].sec in m && l in g.symbols && g.symbols[l] == m[o.labels[l].sec].addr + o.labels[l].off
  {
    hide Output, Compatible, At, NoDup, IndexOf;
    SymbolSource(o, plan, prog, l);
  }

  /** A linked section of its own is described by its seat. */
  lemma {:induction false} OutputDescribed(o: Object, plan: Plan, prog: Program, s: string)
    requires Covers(o, plan) && Compatible(o, plan, prog) && s in plan.names
    ensures var g := Output(o, plan, prog);
      s in o.contents && s in g.sections && Described(g, o, Seats(o, plan, prog), s)
  {
    hide Output, Secs, Compatible, At, NoDup, IndexOf, Seats;
    SeatOf(o, plan, prog, s);
    SectionInOutput(o, plan, prog, IndexOf(plan.names, s));
  }

  /** `.lib.stub` is the linker's section. */
  lemma {:induction false} HeaderSectionPlanned(o: Object, plan: Plan, prog: Program)
    requires Covers(o, plan) && Compatible(o, plan, prog) && HEADER_SECTION in Output(o, plan, prog).sections
    ensures HEADER_SECTION in plan.names
  {
    hide Output, Secs, Encodable, SecNames, Spread, NoDup, Skeleton;
    SectionSource(o, plan, prog, HEADER_SECTION);
    var i :| 0 <= i < |Secs(o, plan, prog)| && Secs(o, plan, prog)[i].name == HEADER_SECTION;
    SecChoice(o, plan, prog, i);
  }

  lemma {:induction false} OutputHeaders(o: Object, plan: Plan, prog: Program, h: Passes.Header)
    requires Covers(o, plan) && Compatible(o, plan, prog)
    requires B.IsHeader(Output(o, plan, prog).symbols, h) && InHeaders(Output(o, plan, prog), h.addr)
    ensures h.lib + "_prx_header" in o.labels
  {
    hide Output, Secs, Encodable, SecNames, Spread, NoDup, Skeleton, Covers, Seats;
    var name := h.lib + "_prx_header";
    HeaderSectionPlanned(o, plan, prog);
    OutputDescribed(o, plan, prog, HEADER_SECTION);
    SeatOf(o, plan, prog, HEADER_SECTION);
    assert name != "";
    SymbolSource(o, plan, prog, name);
    assert StripSuffix(name, "_prx_header") == Some(h.lib);
  }

  lemma {:induction false} OutputApart(o: Object, plan: Plan, prog: Program)
    requires Covers(o, plan) && Compatible(o, plan, prog)
    ensures AddressesApart(o, Seats(o, plan, prog).at)
  {
    hide Compatible, Seats, Apart;
    var at := Seats(o, plan, prog).at;
    forall s, t | Placed(o, s) && Placed(o, t) && s != t
      ensures Apart(at[s].addr, at[s].addr + |o.contents[s]|, at[t].addr, at[t].addr + |o.contents[t]|)
    {
      SeatsApart(o, plan, prog, s, t);
    }
  }

  lemma {:induction false} OutputLabels(o: Object, plan: Plan, prog: Program)
    requires Covers(o, plan) && Compatible(o, plan, prog) && LabelsInside(o)
    ensures LabelsLinked(Output(o, plan, prog), o, Seats(o, plan, prog).at)
  {
    hide Compatible, Seats, Output, LabelsInside;
    var g, at := Output(o, plan, prog), Seats(o, plan, prog).at;
    forall l | l in o.labels && l != ""
      ensures o.labels[l].sec in at && l in g.symbols && g.symbols[l] == at[o.labels[l].sec].addr + o.labels[l].off
    {
      OutputLabel(o, plan, prog, l);
    }
  }

  lemma {:induction false} AllHeaders(o: Object, plan: Plan, prog: Program)
    requires Covers(o, plan) && Compatible(o, plan, prog)
    ensures var g := Output(o, plan, prog);
      forall h :: B.IsHeader(g.symbols, h) && InHeaders(g, h.addr) ==> h.lib + "_prx_header" in o.labels
  {
    hide Output, Compatible, Covers, InHeaders, B.IsHeader;
    var g := Output(o, plan, prog);
    forall h | B.IsHeader(g.symbols, h) && InHeaders(g, h.addr) ensures h.lib + "_prx_header" in o.labels {
      OutputHeaders(o, plan, prog, h);
    }
  }

  lemma {:induction false} OutputLinked(o: Object, plan: Plan, prog: Program)
    requires Covers(o, plan) && Compatible(o, plan, prog) && LabelsInside(o)
    requires Placed(o, PRX_SECTION) && HEADER_SECTION in o.contents
    ensures var g := Output(o, plan, prog); OldTableFits(g) && Linked(g, o, Seats(o, plan, prog))
  {
    hide Output, Seats, Compatible, Seated, LabelsInside, Described, NoDup, Secs, BeforeTable, InHeaders, B.IsHeader;
    OutputHeader(o, plan, prog);
    var g, m := Output(o, plan, prog), Seats(o, plan, prog);
    forall s | s in o.contents ensures Seated(g, o, m, s) { OutputSeated(o, plan, prog, s); }
    OutputApart(o, plan, prog);
    OutputLabels(o, plan, prog);
    OutputDescribed(o, plan, prog, PRX_SECTION);
    if HEADER_SECTION in plan.names { OutputDescribed(o, plan, prog, HEADER_SECTION); }
    if HEADER_SECTION in g.sections { HeaderSectionPlanned(o, plan, prog); }
    AllHeaders(o, plan, prog);
  }

  /** `.opd` in the file, when there is one. */
  lemma {:induction false} OpdPlace(o: Object, plan: Plan, prog: Program, s: string)
    requires Covers(o, plan) && Compatible(o, plan, prog) && ".opd" !in o.contents
    requires OpdDone(Output(o, plan, prog)) > 0 && s in plan.names
    ensures var g, t := Output(o, plan, prog), Seats(o, plan, prog).at[s];
      var p, q := OpdBase(g), OpdBase(g) + DESCRIPTOR_SIZE * OpdDone(g);
      64 + 56 * g.phnum <= p && Apart(p, q, t.off, t.off + |o.contents[s]|)
  {
    hide Output, Secs, Encodable, SecNames, Spread, NoDup, Skeleton, Seats, Covers, At, IndexOf;
    SectionSource(o, plan, prog, ".opd");
    var i :| 0 <= i < |Secs(o, plan, prog)| && Secs(o, plan, prog)[i].name == ".opd";
    SectionInOutput(o, plan, prog, i);
    SecChoice(o, plan, prog, i);
    SeatOf(o, plan, prog, s);
    FileOrder(o, plan, prog, i, IndexOf(plan.names, s));
  }

  /** A placed section lies apart from the program headers and the descriptors. */
  lemma {:induction false} SeatSeparated(o: Object, plan: Plan, prog: Program, s: string)
    requires Covers(o, plan) && Compatible(o, plan, prog) && ".opd" !in o.contents && Placed(o, s)
    ensures var g, t := Output(o, plan, prog), Seats(o, plan, prog).at[s];
      && OldTableFits(g) && 64 + 56 * g.phnum <= t.off
      && (OpdDone(g) > 0 ==>
            var p, q := OpdBase(g), OpdBase(g) + DESCRIPTOR_SIZE * OpdDone(g);
            64 + 56 * g.phnum <= p && Apart(p, q, t.off, t.off + |o.contents[s]|))
  {
    hide Output, Compatible, Seats, OpdDone, OpdBase, OldTableFits, Apart;
    SeatInFile(o, plan, prog, s);
    if OpdDone(Output(o, plan, prog)) > 0 { OpdPlace(o, plan, prog, s); }
  }

  lemma {:induction false} OutputSeparated(o: Object, plan: Plan, prog: Program)
    requires Covers(o, plan) && Compatible(o, plan, prog) && ".opd" !in o.contents && Placed(o, PRX_SECTION)
    ensures var g := Output(o, plan, prog); OldTableFits(g) && Separated(g, o, Seats(o, plan, prog))
  {
    hide Output, Seats, Compatible, NoDup, Slots, OpdDone, OpdBase, Secs, BeforeTable, TableFits, NewSlots, IndexOf, At;
    OutputHeader(o, plan, prog);
    TableRoom(o, plan, prog);
    SeatSeparated(o, plan, prog, PRX_SECTION);
    var g, at := Output(o, plan, prog), Seats(o, plan, prog).at;
    var u, p, q := 64 + 56 * g.phnum, OpdBase(g), OpdBase(g) + DESCRIPTOR_SIZE * OpdDone(g);
    forall s | Placed(o, s)
      ensures u <= at[s].off && (OpdDone(g) > 0 ==> Apart(p, q, at[s].off, at[s].off + |o.contents[s]|))
    {
      SeatSeparated(o, plan, prog, s);
    }
    forall s, t | Placed(o, s) && Placed(o, t) && s != t
      ensures Apart(at[s].off, at[s].off + |o.contents[s]|, at[t].off, at[t].off + |o.contents[t]|)
    {
      SeatsApart(o, plan, prog, s, t);
    }
  }
}
