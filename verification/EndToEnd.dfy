/** From a configuration to the loader: generate, assemble, link, parse, patch,
    load. */
module EndToEnd {
  import opened Bytes
  import opened Wrappers
  import opened Elf
  import opened Encoder
  import opened Passes
  import opened Assembly
  import opened Config
  import opened ImportLayout
  import opened NameClashes
  import opened Linking
  import opened Linker
  import opened Loader
  import opened RoundTrip
  import GF = GeneratedFile
  import ImportTheorem

  // ---------- the generated file meets the linker's demands ----------

  lemma {:induction false} FileLabelsInside(c: Config)
    requires Assembles(MoldierDirectives(c))
    ensures LabelsInside(GF.File(c))
  {
    hide MoldierDirectives, Layout, Fresh;
    GF.AllFresh(c);
    LayoutInside(EMPTY_OBJECT, MoldierDirectives(c));
  }

  /** Section names the generator never uses. */
  const RESERVED: seq<string> := ["", ".opd", ".symtab", ".strtab", ".shstrtab"]

  lemma {:induction false} NotASection(c: Config, s: string)
    requires Assembles(MoldierDirectives(c)) && s in RESERVED
    ensures s !in GF.File(c).contents
  {
    hide Layout, Fresh, Params, Names, Fnids, Fstubs, Headers, Trampolines, Avoids, MoldierDirectives, AllData,
      Assembles;
    var libs := c.libs;
    var s1 := Params(c) + GF.ENTER_NAMES;
    var s2 := s1 + Names(libs) + GF.ENTER_FNIDS;
    var s3 := s2 + Fnids(libs) + Fstubs(libs);
    var s4 := s3 + GF.ENTER_HEADERS + Headers(libs);
    NamesData(libs);
    GF.DataAvoids(Names(libs), s); GF.DataAvoids(Fnids(libs), s); GF.DataAvoids(Headers(libs), s);
    GF.FstubsAvoid(libs, s);
    GF.TrampolinesAvoid(libs, s);
    EntersAvoidReserved(c, s);
    GF.AvoidsAppend(Params(c), GF.ENTER_NAMES, s);
    GF.AvoidsAppend(s1, Names(libs), s);
    GF.AvoidsAppend(s1 + Names(libs), GF.ENTER_FNIDS, s);
    GF.AvoidsAppend(s2, Fnids(libs), s);
    GF.AvoidsAppend(s2 + Fnids(libs), Fstubs(libs), s);
    GF.AvoidsAppend(s3, GF.ENTER_HEADERS, s);
    GF.AvoidsAppend(s3 + GF.ENTER_HEADERS, Headers(libs), s);
    GF.AvoidsAppend(s4, GF.ENTER_TEXT, s);
    GF.AvoidsAppend(s4 + GF.ENTER_TEXT, Trampolines(libs), s);
    GF.FileParts(c);
    assert MoldierDirectives(c) == s4 + GF.ENTER_TEXT + Trampolines(libs);
    GF.AllFresh(c);
    LayoutAvoids(EMPTY_OBJECT, MoldierDirectives(c), s);
  }

  lemma {:induction false} EntersAvoidReserved(c: Config, s: string)
    requires s in RESERVED
    ensures Avoids(Params(c), s) && Avoids(GF.ENTER_NAMES, s) && Avoids(GF.ENTER_FNIDS, s)
    ensures Avoids(GF.ENTER_HEADERS, s) && Avoids(GF.ENTER_TEXT, s)
    ensures s != ".text" && (|s| < 2 || s[1] != 'd')
  {
    assert |""| == 0 && |".opd"| == 4 && |".symtab"| == 7 && |".strtab"| == 7 && |".shstrtab"| == 9;
    assert |".text"| == 5 && |".sys_proc_param"| == 15 && |PRX_SECTION| == 19 && |NAME_SECTION| == 19;
    assert |FNID_SECTION| == 15 && |HEADER_SECTION| == 9 && |TEXT_SECTION| == 13;
    assert ".shstrtab"[1] != HEADER_SECTION[1];
  }

  /** A configuration the assembler accepts and the map order of its keys. */
  ghost predicate Generated(c: Config) {
    KeyOrdered(c.libs) && Assembles(MoldierDirectives(c))
  }

  /** Linking meets every assumption of the import theorems. */
  lemma {:induction false} LinkedIsReady(c: Config, plan: Plan, prog: Program, order: seq<string>)
    requires Generated(c) && Linker.Covers(GF.File(c), plan) && Compatible(GF.File(c), plan, prog)
    requires Enumerates(order, Output(GF.File(c), plan, prog).symbols)
    ensures Ready(c, Output(GF.File(c), plan, prog), Seats(GF.File(c), plan, prog), order)
  {
    hide GF.File, Output, Seats, Compatible, Linker.Covers, MoldierDirectives, Assembles, KeyOrdered, LibNamesPlain,
      Linked, Separated, TableFits, NewSlots, NoWrap, OpdFits, LoadImage.Loadable, LabelsInside, BeforeTable,
      Enumerates, HeaderTable;
    var o := GF.File(c);
    FileLabelsInside(c);
    NotASection(c, ".opd");
    GF.PrxParamsInFile(c);
    GF.HeadersInFile(c);
    OutputHeader(o, plan, prog);
    TableRoom(o, plan, prog);
    SegmentsInFile(o, plan, prog);
    PassRoom(o, plan, prog);
    OutputLinked(o, plan, prog);
    OutputSeparated(o, plan, prog);
  }

  // ---------- the closed theorem ----------

  /** Function `f` has a stub slot label in the generated file. */
  lemma {:induction false} SlotLabel(c: Config, i: nat, k: nat)
    requires Assembles(MoldierDirectives(c)) && i < |c.libs| && k < |c.libs[i].functions|
    ensures c.libs[i].functions[k].name + "_stub" in GF.File(c).labels
  {
    hide MoldierDirectives, Assembles, GF.File;
    GF.SlotsInFile(c, i);
    assert BoundTo(GF.File(c), c.libs[i].functions[k].name + "_stub",
        GF.File(c).labels[c.libs[i].functions[k].name + "_stub"]);
  }

  predicate SlotLabels(c: Config) {
    forall i, k :: 0 <= i < |c.libs| && 0 <= k < |c.libs[i].functions| ==>
      c.libs[i].functions[k].name + "_stub" in GF.File(c).labels
  }

  /** What the configuration asks for: the slots are where the linker put the
      functions' stub labels. */
  ghost function Asked(c: Config, plan: Plan, lib: Library): Import
    requires forall k :: 0 <= k < |lib.functions| ==> lib.functions[k].name + "_stub" in GF.File(c).labels
  {
    Import(lib.name, lib.moduleId,
           seq(|lib.functions|, k requires 0 <= k < |lib.functions| => lib.functions[k].fnid),
           seq(|lib.functions|, k requires 0 <= k < |lib.functions| => Value(GF.File(c), plan, lib.functions[k].name + "_stub")))
  }

  lemma {:induction false} AskedIsExpected(c: Config, plan: Plan, prog: Program, order: seq<string>, i: nat)
    requires Generated(c) && Linker.Covers(GF.File(c), plan) && Compatible(GF.File(c), plan, prog) && i < |c.libs|
    requires Enumerates(order, Output(GF.File(c), plan, prog).symbols)
    ensures var lib, g := c.libs[i], Output(GF.File(c), plan, prog);
      && (forall k :: 0 <= k < |lib.functions| ==>
            lib.functions[k].name + "_stub" in GF.File(c).labels && lib.functions[k].name + "_stub" in g.symbols)
      && ImportTheorem.Expected(g.symbols, lib) == Asked(c, plan, lib)
  {
    hide GF.File, Output, Compatible, Linker.Covers, MoldierDirectives, Assembles, KeyOrdered, LibNamesPlain,
      Enumerates, Value;
    var lib, g := c.libs[i], Output(GF.File(c), plan, prog);
    forall k | 0 <= k < |lib.functions|
      ensures lib.functions[k].name + "_stub" in GF.File(c).labels && lib.functions[k].name + "_stub" in g.symbols
      ensures g.symbols[lib.functions[k].name + "_stub"] == Value(GF.File(c), plan, lib.functions[k].name + "_stub")
    {
      SlotLabel(c, i, k);
      assert lib.functions[k].name + "_stub" != "";
      SymbolSource(GF.File(c), plan, prog, lib.functions[k].name + "_stub");
    }
  }

  ghost function AskedImports(c: Config, plan: Plan): seq<Import>
    requires SlotLabels(c)
  {
    seq(|c.libs|, i requires 0 <= i < |c.libs| => Asked(c, plan, c.libs[i]))
  }

  /** The file the patcher is given. */
  ghost function LinkedFile(c: Config, plan: Plan, prog: Program): seq<byte>
    requires Generated(c) && Linker.Covers(GF.File(c), plan) && Compatible(GF.File(c), plan, prog)
  {
    LinkEncodable(GF.File(c), plan, prog);
    Encode(Link(GF.File(c), plan, prog))
  }

  /** The patcher accepts `d`, and the loader reads `imports` out of its result. */
  ghost predicate PatchesTo(d: seq<byte>, order: seq<string>, imports: seq<Import>) {
    && Indexable(d) && Parse(d).Ok? && Patchable(Parse(d).value) && (forall k :: k in order ==> k in Parse(d).value.symbols)
    && PatchFile(d, order).Ok? && Imports(PatchFile(d, order).value) == Some(imports)
  }

  lemma {:induction false} PatchedFile(d: seq<byte>, g: Image, order: seq<string>, imports: seq<Import>)
    requires Indexable(d) && Parse(d) == Ok(g) && g.data == d && Patchable(g) && OpdFits(g)
    requires (forall k :: k in order ==> k in g.symbols) && Imports(PatchAll(g, order).data) == Some(imports)
    ensures PatchesTo(d, order, imports)
  {
    hide Indexable, Parse, Patchable, OpdFits, PatchAll, Imports;
  }

  /** For every configuration that assembles, every placement of its sections
      and every program around them: the linked file is accepted and patched,
      and a loader that starts at the PRX parameter header decodes exactly the
      configured libraries, in key order, with their module ids, FNIDs and the
      addresses of their stub slots. */
  lemma {:induction false} ConfigurationReachesLoader(c: Config, plan: Plan, prog: Program, order: seq<string>)
    requires Generated(c) && Linker.Covers(GF.File(c), plan) && Compatible(GF.File(c), plan, prog)
    requires Enumerates(order, Output(GF.File(c), plan, prog).symbols)
    ensures SlotLabels(c) && PatchesTo(LinkedFile(c, plan, prog), order, AskedImports(c, plan))
  {
    hide GF.File, Output, Compatible, Linker.Covers, MoldierDirectives, Assembles, KeyOrdered, LibNamesPlain,
      Enumerates, Link, Encode, Encodable, Seats, Skeleton, Asked, ImportTheorem.Expected, PatchAll, Patchable,
      Indexable, Parse, Imports, OpdFits, PatchesTo;
    var o := GF.File(c);
    var g := Output(o, plan, prog);
    OutputParses(o, plan, prog);
    OutputHeader(o, plan, prog);
    PassRoom(o, plan, prog);
    LinkedIsReady(c, plan, prog, order);
    ImportTheorem.ImportRoundTrip(c, g, Seats(o, plan, prog), order);
    ExpectedAsked(c, plan, prog, order);
    PatchedFile(LinkedFile(c, plan, prog), g, order, AskedImports(c, plan));
  }

  lemma {:induction false} ExpectedAsked(c: Config, plan: Plan, prog: Program, order: seq<string>)
    requires Generated(c) && Linker.Covers(GF.File(c), plan) && Compatible(GF.File(c), plan, prog)
    requires Enumerates(order, Output(GF.File(c), plan, prog).symbols)
    requires ImportTheorem.StubSymbols(c.libs, Output(GF.File(c), plan, prog).symbols)
    ensures SlotLabels(c)
    ensures ImportTheorem.Expectation(c.libs, Output(GF.File(c), plan, prog).symbols) == AskedImports(c, plan)
  {
    hide GF.File, Output, Compatible, Linker.Covers, Generated, Enumerates, Asked, ImportTheorem.Expected;
    forall i | 0 <= i < |c.libs|
      ensures forall k :: 0 <= k < |c.libs[i].functions| ==> c.libs[i].functions[k].name + "_stub" in GF.File(c).labels
      ensures ImportTheorem.Expected(Output(GF.File(c), plan, prog).symbols, c.libs[i]) == Asked(c, plan, c.libs[i])
    {
      AskedIsExpected(c, plan, prog, order, i);
    }
  }
}
