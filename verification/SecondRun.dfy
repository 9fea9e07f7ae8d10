/** Running the patcher twice on a linked file: every assumption of the re-run
    theorem holds of it, a bootable program makes the second run differ from the
    first, and the loader's imports stay the same. */
module SecondRun {
  import opened Bytes
  import opened Wrappers
  import opened Lists
  import opened Elf
  import opened Encoder
  import opened ReadBack
  import opened Passes
  import opened Locality
  import opened Independence
  import opened LoadImage
  import opened Descriptors
  import opened Rerun
  import opened Assembly
  import opened Config
  import opened Linking
  import opened Linker
  import opened RoundTrip
  import opened Loader
  import opened EndToEnd
  import GF = GeneratedFile
  import ImportTheorem
  import Plans
  import P = ProgramHeaders

  // ---------- what the parser reads lies behind what the passes write ----------

  /** Where the writer's own tables start. */
  function TablesStart(f: ElfSpec): nat
    requires TablesFit(f)
  {
    ContentOffset(f, |f.secs| + 1)
  }

  lemma {:induction false} OwnTables(f: ElfSpec)
    requires Encodable(f)
    ensures TablesStart(f) <= ContentOffset(f, |f.secs| + 2) && TablesStart(f) <= ContentOffset(f, |f.secs| + 3)
    ensures TablesStart(f) <= ShdrOffset(f)
  {
    hide Concat, AllSecs, StrTab, SymTab, ContentOffset;
    var n := |f.secs|;
    ContentsInOrder(f, n + 1, n + 2);
    ContentsInOrder(f, n + 1, n + 3);
    OffsetFits(f, n + 1);
  }

  /** Apart from the file header, the parser reads the writer's tables. */
  lemma {:induction false} MetaPlace(f: ElfSpec, i: nat)
    requires Encodable(f) && Indexable(Encode(f)) && Parse(Encode(f)).Ok? && Meta(Encode(f), i)
    ensures (i < 64 && i != 7 && !(56 <= i < 58)) || TablesStart(f) <= i
  {
    hide Encode, StrTab, SymTab, SectionMap, AllSecs, ContentOffset, HeaderError, SectionOf, NamesInTable, Shoff,
      Shnum, Shstrndx, LastOf, Parse, Indexable, TablesStart, ShdrOffset, SecNames, Encodable, SymtabReadable,
      Symbols, NameIndex;
    OwnTables(f);
    HeaderReadsBack(f);
    TablesFound(f);
    ParserInvertsEncoder(f);
    NamesTable(f);
    TableStart(f);
  }

  lemma {:induction false} TableStart(f: ElfSpec)
    requires Encodable(f)
    ensures TablesStart(f) == ContentOffset(f, |f.secs| + 1)
  {
  }

  /** The section header of the section names. */
  lemma {:induction false} NamesTable(f: ElfSpec)
    requires Encodable(f)
    ensures HeaderOk(Encode(f))
    ensures AllShdrs(Encode(f))[Shstrndx(Encode(f))].offset as int == ContentOffset(f, |f.secs| + 3)
  {
    hide Encode, StrTab, SymTab, AllSecs, ContentOffset, HeaderError, NameIndex, Shoff, Shnum, Shstrndx, ShdrOffset,
      SecNames, LastOf;
    SectionsReadBack(f);
    HeaderReadsBack(f);
    assert |AllSecs(f)| == |f.secs| + 4;
    ShdrsReadBack(f, |AllSecs(f)|);
  }

  /** A user section ends before the tables. */
  lemma {:induction false} UserBelow(o: Object, plan: Plan, prog: Program, i: nat)
    requires Linker.Covers(o, plan) && Compatible(o, plan, prog) && i < |Secs(o, plan, prog)|
    ensures Encodable(Skeleton(o, plan, prog)) && Encodable(Link(o, plan, prog))
    ensures At(o, plan, prog, i) + |Secs(o, plan, prog)[i].content| <= TablesStart(Link(o, plan, prog))
  {
    hide Secs, SecNames, NoDup, Linker.Covers, Skeleton, Compatible, ContentOffset, AllSecs, Link, StrTab, SymTab;
    LinkEncodable(o, plan, prog);
    SkeletonSecs(o, plan, prog);
    var f := Link(o, plan, prog);
    UserSection(f, i);
    ContentsInOrder(f, i + 1, |f.secs| + 1);
  }

  lemma {:induction false} HeadersBelow(o: Object, plan: Plan, prog: Program)
    requires Linker.Covers(o, plan) && Compatible(o, plan, prog)
    ensures Encodable(Skeleton(o, plan, prog)) && Encodable(Link(o, plan, prog))
    ensures 64 + 56 * |Link(o, plan, prog).phdrs| <= TablesStart(Link(o, plan, prog))
  {
    hide Concat, AllSecs, Chunks, Compatible, Linker.Covers, Link, Skeleton, SecNames;
    LinkEncodable(o, plan, prog);
  }

  /** The sections the passes use lie before the tables. */
  lemma {:induction false} SectionBelow(o: Object, plan: Plan, prog: Program, name: string)
    requires Linker.Covers(o, plan) && Compatible(o, plan, prog) && name in Output(o, plan, prog).sections
    requires name == ".opd" || name == HEADER_SECTION || (name == PRX_SECTION && name in plan.names)
    ensures Encodable(Skeleton(o, plan, prog)) && Encodable(Link(o, plan, prog))
    ensures var s := Output(o, plan, prog).sections[name]; s.offset + s.size <= TablesStart(Link(o, plan, prog))
  {
    hide Output, Secs, Encodable, SecNames, Spread, NoDup, Skeleton, At, Link, Relocated, TablesStart, IndexOf;
    if name == PRX_SECTION {
      var i := IndexOf(plan.names, name);
      SeatOf(o, plan, prog, name);
      SectionInOutput(o, plan, prog, i);
      UserBelow(o, plan, prog, i);
    } else {
      PrxNameDiffers();
      SectionSource(o, plan, prog, name);
      var i :| 0 <= i < |Secs(o, plan, prog)| && Secs(o, plan, prog)[i].name == name;
      SectionInOutput(o, plan, prog, i);
      SecChoice(o, plan, prog, i);
      UserBelow(o, plan, prog, i);
    }
  }

  lemma {:induction false} PrxNameDiffers()
    ensures HEADER_SECTION !in ["", ".symtab", ".strtab", ".shstrtab"]
    ensures ".opd" !in ["", ".symtab", ".strtab", ".shstrtab"]
  {
    assert |HEADER_SECTION| == 9 && |".opd"| == 4 && |".symtab"| == 7 && |".strtab"| == 7 && |".shstrtab"| == 9;
    assert HEADER_SECTION[1] != ".shstrtab"[1];
  }

  // ---------- the assumptions of the re-run theorem ----------

  /** The linked file's bytes and image. */
  lemma {:induction false} LinkedFileParses(c: Config, plan: Plan, prog: Program)
    requires Generated(c) && Linker.Covers(GF.File(c), plan) && Compatible(GF.File(c), plan, prog)
    ensures Encodable(Skeleton(GF.File(c), plan, prog)) && Encodable(Link(GF.File(c), plan, prog))
    ensures var d := LinkedFile(c, plan, prog);
      && d == Encode(Link(GF.File(c), plan, prog)) && Indexable(d) && Parse(d) == Ok(Output(GF.File(c), plan, prog))
      && Output(GF.File(c), plan, prog).data == d
  {
    hide GF.File, Output, Compatible, Linker.Covers, Generated, Skeleton, Link, Encode, Indexable, Parse;
    OutputParses(GF.File(c), plan, prog);
  }

  lemma {:induction false} PrxPlanned(c: Config, plan: Plan)
    requires Generated(c) && Linker.Covers(GF.File(c), plan)
    ensures PRX_SECTION in plan.names
  {
    hide GF.File, MoldierDirectives, Assembles, KeyOrdered;
    GF.PrxParamsInFile(c);
    assert Placed(GF.File(c), PRX_SECTION);
  }

  /** Every byte a pass may write is in the file header, or between it and the
      writer's tables. */
  lemma {:induction false} WrittenBelow(c: Config, plan: Plan, prog: Program, order: seq<string>, p: Pass, i: nat)
    requires Generated(c) && Linker.Covers(GF.File(c), plan) && Compatible(GF.File(c), plan, prog)
    requires Enumerates(order, Output(GF.File(c), plan, prog).symbols)
    requires var g := Output(GF.File(c), plan, prog); CanRunAll(g) && Known(g, order) && Region(p, g, order, i)
    ensures Encodable(Skeleton(GF.File(c), plan, prog)) && Encodable(Link(GF.File(c), plan, prog))
    ensures i == 7 || 56 <= i < 58 || 64 <= i < TablesStart(Link(GF.File(c), plan, prog))
  {
    hide GF.File, Output, Seats, Compatible, Linker.Covers, Generated, Ready, Region, Enumerates, TablesStart, Slots,
      OpdBase, OpdDone, TableFits, NewSlots, Link, Skeleton, Encodable, Secs;
    var o := GF.File(c);
    var g := Output(o, plan, prog);
    LinkedIsReady(c, plan, prog, order);
    RegionRange(c, g, Seats(o, plan, prog), order, p, i);
    RangesApart(c, g, Seats(o, plan, prog), order);
    PrxTable(c, g, Seats(o, plan, prog), order);
    HeadersBelow(o, plan, prog);
    OutputHeader(o, plan, prog);
    TableRoom(o, plan, prog);
    PrxPlanned(c, plan);
    SectionBelow(o, plan, prog, PRX_SECTION);
    if p == FixStubs { SectionBelow(o, plan, prog, HEADER_SECTION); }
    if p == FixOpd {
      OpdRange(g, i);
      SectionBelow(o, plan, prog, ".opd");
    }
  }

  /** Descriptors exist only in `.opd`. */
  lemma {:induction false} OpdRange(g: Image, i: nat)
    requires OpdBase(g) <= i < OpdBase(g) + DESCRIPTOR_SIZE * OpdDone(g)
    ensures OpdDone(g) > 0 && ".opd" in g.sections && OpdBase(g) == g.sections[".opd"].offset
    ensures i < g.sections[".opd"].offset + g.sections[".opd"].size
  {
  }

  lemma {:induction false} FieldRegion(g: Image, order: seq<string>, i: nat) returns (p: Pass)
    requires CanRunAll(g) && Known(g, order) && Field(g, order, i)
    ensures CanRun(p, g) && Region(p, g, order, i)
  {
    hide StubHeaders, HasStubs, HasPrxParams, P.PhdrBytes;
    if OpdField(g, i) {
      p := FixOpd;
    } else {
      p :| Region(p, g, order, i);
    }
  }

  /** The linked file meets every assumption of the re-run theorem. */
  lemma {:induction false} LinkedIsWellFormed(c: Config, plan: Plan, prog: Program, order: seq<string>)
    requires Generated(c) && Linker.Covers(GF.File(c), plan) && Compatible(GF.File(c), plan, prog)
    requires Enumerates(order, Output(GF.File(c), plan, prog).symbols)
    ensures var d := LinkedFile(c, plan, prog);
      Indexable(d) && Parse(d) == Ok(Output(GF.File(c), plan, prog))
    ensures WellFormed(Output(GF.File(c), plan, prog), order) && MetaUntouched(LinkedFile(c, plan, prog), order)
  {
    hide GF.File, Output, Seats, Compatible, Linker.Covers, Generated, TableFits, NewSlots, LinkedFile, Disjoint,
      NoWrap, Field, Meta, Indexable, Parse, StubHeaders, HasStubs, OpdFits, StubSpaced, P.TableClearOfHeader;
    var g, d := Output(GF.File(c), plan, prog), LinkedFile(c, plan, prog);
    LinkedFileParses(c, plan, prog);
    LinkedIsReady(c, plan, prog, order);
    ReadyWellFormed(c, g, Seats(GF.File(c), plan, prog), order);
    forall i: nat | i < |d| && Meta(d, i) ensures !Field(g, order, i) { MetaUnwritten(c, plan, prog, order, i); }
  }

  lemma {:induction false} MetaUnwritten(c: Config, plan: Plan, prog: Program, order: seq<string>, i: nat)
    requires Generated(c) && Linker.Covers(GF.File(c), plan) && Compatible(GF.File(c), plan, prog)
    requires Enumerates(order, Output(GF.File(c), plan, prog).symbols)
    requires CanRunAll(Output(GF.File(c), plan, prog)) && Known(Output(GF.File(c), plan, prog), order)
    requires Indexable(LinkedFile(c, plan, prog)) && Parse(LinkedFile(c, plan, prog)).Ok?
    requires Meta(LinkedFile(c, plan, prog), i)
    ensures !Field(Output(GF.File(c), plan, prog), order, i)
  {
    hide GF.File, Output, Compatible, Linker.Covers, Generated, Region, Enumerates, TablesStart, CanRunAll, Known,
      Link, Skeleton, LinkedFile, StrTab, SymTab, SecNames, ShdrOffset, Field, Meta, Encode, Indexable, Parse;
    var g := Output(GF.File(c), plan, prog);
    LinkedFileParses(c, plan, prog);
    if Field(g, order, i) {
      var p := FieldRegion(g, order, i);
      WrittenBelow(c, plan, prog, order, p, i);
      HeadersBelow(GF.File(c), plan, prog);
      MetaPlace(Link(GF.File(c), plan, prog), i);
    }
  }

  lemma {:induction false} ReadyWellFormed(c: Config, g: Image, seats: Placement, order: seq<string>)
    requires Ready(c, g, seats, order)
    ensures WellFormed(g, order)
  {
    hide Region, Linked, Separated, NoWrap, Loadable, Assembles, MoldierDirectives, GF.File, NewSlots, TableFits,
      StubHeaders, Disjoint;
    ReadyRuns(c, g, seats, order);
    ReadyDisjoint(c, g, seats, order);
    if HEADER_SECTION in g.sections { LibrariesSpaced(c, g, seats, order); }
  }

  // ---------- the second run ----------

  /** A second run leaves the loader's imports as they are: of any linked image
      that is fit for a second run ... */
  lemma {:induction false} RerunKeepsImports(c: Config, d: seq<byte>, seats: Placement, order: seq<string>,
      other: seq<string>)
    requires Indexable(d) && Parse(d).Ok? && Parse(d).value.data == d && U64(d[32..40]) == Parse(d).value.phoff
    requires Ready(c, Parse(d).value, seats, order) && Enumerates(other, Parse(d).value.symbols)
    requires WellFormed(Parse(d).value, order) && MetaUntouched(d, order)
    ensures Patchable(Parse(d).value) && PatchFile(d, order).Ok?
    ensures ImportTheorem.StubSymbols(c.libs, Parse(d).value.symbols)
    ensures PatchesTo(PatchFile(d, order).value, other, ImportTheorem.Expectation(c.libs, Parse(d).value.symbols))
  {
    hide Enumerates, Indexable, Parse, NoPanic, Imports, WellFormed, MetaUntouched, PatchAll, EntryByte, OpdFits,
      IsEntry, DescriptorAt, ImportTheorem.Expectation, ImportTheorem.LeftBy, NewPhnum, ImportTheorem.StubSymbols,
      Ready;
    var g := Parse(d).value;
    RerunChangesOnlyEntryDescriptors(d, order, other);
    WellKnown(g, order);
    KnownAgain(g, other);
    var once := PatchFile(d, order).value;
    var twice := PatchFile(once, other).value;
    LeftTwice(g, order, once, twice);
    ImportTheorem.ImportsOf(c, g, seats, order, twice);
  }

  /** ... and so of every linked program, whatever the orders in which the runs
      meet the symbols. */
  lemma {:induction false} SecondRunKeepsImports(c: Config, plan: Plan, prog: Program, order: seq<string>,
      other: seq<string>)
    requires Generated(c) && Linker.Covers(GF.File(c), plan) && Compatible(GF.File(c), plan, prog)
    requires Enumerates(order, Output(GF.File(c), plan, prog).symbols)
    requires Enumerates(other, Output(GF.File(c), plan, prog).symbols)
    ensures EndToEnd.SlotLabels(c) && PatchesTo(LinkedFile(c, plan, prog), order, AskedImports(c, plan))
    ensures PatchesTo(PatchFile(LinkedFile(c, plan, prog), order).value, other, AskedImports(c, plan))
  {
    hide GF.File, Output, Compatible, Linker.Covers, Generated, Enumerates, LinkedFile, Indexable, Parse, Patchable,
      PatchFile, WellFormed, MetaUntouched, AskedImports, Seats, ImportTheorem.Expectation, ImportTheorem.StubSymbols,
      Ready, Imports;
    ConfigurationReachesLoader(c, plan, prog, order);
    LinkedFileParses(c, plan, prog);
    LinkedIsWellFormed(c, plan, prog, order);
    LinkedIsReady(c, plan, prog, order);
    OutputHeader(GF.File(c), plan, prog);
    RerunKeepsImports(c, LinkedFile(c, plan, prog), Seats(GF.File(c), plan, prog), order, other);
    ExpectedAsked(c, plan, prog, order);
  }

  lemma {:induction false} WellKnown(g: Image, order: seq<string>)
    requires WellFormed(g, order)
    ensures Known(g, order)
  {
  }

  lemma {:induction false} KnownAgain(g: Image, other: seq<string>)
    requires Enumerates(other, g.symbols)
    ensures Known(g, other)
  {
  }

  /** What differs after the second run is in function descriptors. */
  lemma {:induction false} LeftTwice(g: Image, order: seq<string>, once: seq<byte>, twice: seq<byte>)
    requires Patchable(g) && Known(g, order) && once == PatchAll(g, order).data && |twice| == |once| == |g.data|
    requires forall i :: 0 <= i < |g.data| && !EntryByte(g, i) ==> twice[i] == once[i]
    ensures ImportTheorem.LeftBy(g, order, twice)
  {
    hide PatchAll, Patchable, IsEntry;
    forall x | 0 <= x < |twice| && !OpdByte(g, x) ensures !EntryByte(g, x) { NotAnEntryByte(g, x); }
  }

  lemma {:induction false} NotAnEntryByte(g: Image, x: nat)
    requires !OpdByte(g, x)
    ensures !EntryByte(g, x)
  {
    hide IsEntry, OpdBase, OpdDone;
  }

  /** The program boots through descriptor `n` of its `.opd`, section `i`. */
  ghost predicate Boots(prog: Program, i: nat, n: nat, func: u64, toc: u64) {
    && i < |prog.secs| && prog.secs[i].name == ".opd"
    && var c, o := prog.secs[i].content, DESCRIPTOR_SIZE * n;
    && prog.entry == prog.secs[i].addr + o && o + DESCRIPTOR_SIZE <= |c|
    && U64(c[o..o + 8]) == func && U64(c[o + 8..o + 16]) == toc
  }

  /** Descriptor `n` of the image is the entry, with this code address and TOC. */
  ghost predicate BootsFrom(g: Image, n: nat, func: u64, toc: u64) {
    && ".opd" in g.sections && n < OpdCount(g) && OpdBase(g) + DESCRIPTOR_SIZE * (n + 1) <= |g.data|
    && g.entry == g.sections[".opd"].addr + DESCRIPTOR_SIZE * n
    && DescriptorAt(g, g.data, n).func == func && DescriptorAt(g, g.data, n).toc == toc
  }

  /** The entry descriptor as the patcher reads it. */
  lemma {:induction false} BootDescriptor(o: Object, plan: Plan, prog: Program, i: nat, n: nat, func: u64, toc: u64)
    requires Linker.Covers(o, plan) && Compatible(o, plan, prog) && Boots(prog, i, n, func, toc)
    ensures BootsFrom(Output(o, plan, prog), n, func, toc)
  {
    hide Output, Secs, Encodable, SecNames, Spread, Skeleton, At, Link, U64, NoDup;
    var k, c := |plan.names| + i, prog.secs[i].content;
    SecChoice(o, plan, prog, k);
    SectionInOutput(o, plan, prog, k);
    OutputHeader(o, plan, prog);
    OutputEntry(o, plan, prog);
    var g, at, d := Output(o, plan, prog), At(o, plan, prog, k), DESCRIPTOR_SIZE * n;
    SliceOfSlice(g.data, at, at + |c|, d, d + 8);
    SliceOfSlice(g.data, at, at + |c|, d + 8, d + 16);
  }

  lemma {:induction false} BootsIsEntry(g: Image, n: nat, func: u64, toc: u64)
    requires BootsFrom(g, n, func, toc)
    ensures IsEntry(g, g.data, n)
  {
  }

  lemma {:induction false} OutputEntry(o: Object, plan: Plan, prog: Program)
    requires Linker.Covers(o, plan) && Compatible(o, plan, prog)
    ensures Output(o, plan, prog).entry == prog.entry
  {
    hide Encode, Indexable, Parse, SecNames, AllSecs, Compatible, Linker.Covers, StrTab, SymTab;
    LinkEncodable(o, plan, prog);
    ParserInvertsEncoder(Link(o, plan, prog));
  }

  /** Full idempotence is false of every linked program that boots through a
      descriptor whose code address and TOC differ in their low halves: the
      second run changes the file. */
  lemma {:induction false} SecondRunDiffers(c: Config, plan: Plan, prog: Program, order: seq<string>,
      other: seq<string>, i: nat, n: nat, func: u64, toc: u64)
    requires Generated(c) && Linker.Covers(GF.File(c), plan) && Compatible(GF.File(c), plan, prog)
    requires Boots(prog, i, n, func, toc) && Lo32(func) != Lo32(toc)
    requires Enumerates(order, Output(GF.File(c), plan, prog).symbols)
    requires Enumerates(other, Output(GF.File(c), plan, prog).symbols)
    ensures EndToEnd.SlotLabels(c) && PatchesTo(LinkedFile(c, plan, prog), order, AskedImports(c, plan))
    ensures PatchesTo(PatchFile(LinkedFile(c, plan, prog), order).value, other, AskedImports(c, plan))
    ensures var once := PatchFile(LinkedFile(c, plan, prog), order).value; PatchFile(once, other).value != once
  {
    hide GF.File, Output, Compatible, Linker.Covers, Generated, Enumerates, LinkedFile, Indexable, Parse, Patchable,
      Imports, WellFormed, MetaUntouched, PatchAll, AskedImports, EntryByte, OpdFits, IsEntry, DescriptorAt, Boots,
      NewPhnum;
    SecondRunKeepsImports(c, plan, prog, order, other);
    LinkedFileParses(c, plan, prog);
    LinkedIsWellFormed(c, plan, prog, order);
    RerunChangesOnlyEntryDescriptors(LinkedFile(c, plan, prog), order, other);
    BootDescriptor(GF.File(c), plan, prog, i, n, func, toc);
    BootsIsEntry(Output(GF.File(c), plan, prog), n, func, toc);
  }

  /** Such files exist for every reasonable configuration. */
  lemma {:induction false} PatchingIsNotIdempotent(c: Config) returns (plan: Plan, order: seq<string>)
    requires Plans.Reasonable(c)
    ensures Generated(c) && Linker.Covers(GF.File(c), plan) && Compatible(GF.File(c), plan, Plans.BOOT)
    ensures EndToEnd.SlotLabels(c) && PatchesTo(LinkedFile(c, plan, Plans.BOOT), order, AskedImports(c, plan))
    ensures PatchesTo(PatchFile(LinkedFile(c, plan, Plans.BOOT), order).value, order, AskedImports(c, plan))
    ensures var once := PatchFile(LinkedFile(c, plan, Plans.BOOT), order).value; PatchFile(once, order).value != once
  {
    hide GF.File, Output, Compatible, Linker.Covers, Generated, Enumerates, LinkedFile, PatchesTo, PatchFile,
      AskedImports, Plans.Reasonable, Boots;
    plan, order := Plans.EveryConfigurationLoads(c);
    BootBoots();
    SecondRunDiffers(c, plan, Plans.BOOT, order, order, 0, 0, Plans.CODE, Plans.TOC);
  }

  lemma {:induction false} BootBoots()
    ensures Boots(Plans.BOOT, 0, 0, Plans.CODE, Plans.TOC)
  {
    hide BE, U64;
    var c := Plans.OPD.content;
    assert c[0..8] == BE(Plans.CODE, 8) && c[8..16] == BE(Plans.TOC, 8);
    FieldRoundTrip64(Plans.CODE);
    FieldRoundTrip64(Plans.TOC);
  }
}
