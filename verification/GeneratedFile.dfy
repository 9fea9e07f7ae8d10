/** The whole assembled file: every library finds its pieces. */
module GeneratedFile {
  import opened Bytes
  import opened Assembly
  import opened Config
  import opened ImportLayout
  import G = Generators

  // The parts of the directive list around each block.

  const ENTER_NAMES: seq<Directive> := [Section(NAME_SECTION, "aR")]
  const ENTER_FNIDS: seq<Directive> := [Section(FNID_SECTION, "aR"), Align(2)]
  const ENTER_HEADERS: seq<Directive> := [Section(HEADER_SECTION, "awR"), Align(2)]
  const ENTER_TEXT: seq<Directive> := [Section(TEXT_SECTION, "ax"), Align(2)]

  function ToNames(c: Config): seq<Directive> { Params(c) + ENTER_NAMES }
  function ToFnids(c: Config): seq<Directive> { ToNames(c) + Names(c.libs) + ENTER_FNIDS }
  function ToFstubs(c: Config): seq<Directive> { ToFnids(c) + Fnids(c.libs) }
  function ToHeaders(c: Config): seq<Directive> { ToFstubs(c) + Fstubs(c.libs) + ENTER_HEADERS }
  function ToText(c: Config): seq<Directive> { ToHeaders(c) + Headers(c.libs) + ENTER_TEXT }

  lemma {:induction false} FileParts(c: Config)
    ensures MoldierDirectives(c) == ToText(c) + Trampolines(c.libs)
  {
    hide Params, Names, Fnids, Fstubs, Headers, Trampolines;
    var libs := c.libs;
    var s := Names(libs) + ENTER_FNIDS + Fnids(libs) + Fstubs(libs) + ENTER_HEADERS + Headers(libs) + ENTER_TEXT
        + Trampolines(libs);
    assert LibraryBlocks(libs) == ENTER_NAMES + s;
    assert ToText(c) + Trampolines(libs) == Params(c) + ENTER_NAMES + s;
  }

  /** Assembling `a`, then `b`, then `rest`: the facts about the middle state
      carry over to the end. */
  lemma {:induction false} Middle(a: seq<Directive>, b: seq<Directive>, rest: seq<Directive>)
    requires Fresh(EMPTY_OBJECT, a + b + rest)
    ensures var m := Layout(EMPTY_OBJECT, a); var r := Layout(m, b);
      && Wf(m) && Fresh(EMPTY_OBJECT, a) && Fresh(m, b) && Wf(r) && Fresh(r, rest) && r == Layout(EMPTY_OBJECT, a + b)
      && Layout(EMPTY_OBJECT, a + b + rest) == Layout(r, rest) && Extends(r, Layout(EMPTY_OBJECT, a + b + rest))
      && Wf(Layout(EMPTY_OBJECT, a + b + rest))
  {
    hide Layout, Fresh;
    Sequence(EMPTY_OBJECT, a + b, rest);
    Sequence(EMPTY_OBJECT, a, b);
  }

  lemma {:induction false} AllFresh(c: Config)
    requires Assembles(MoldierDirectives(c))
    ensures Fresh(EMPTY_OBJECT, MoldierDirectives(c))
  {
    hide MoldierDirectives;
  }

  function File(c: Config): Object { Layout(EMPTY_OBJECT, MoldierDirectives(c)) }

  lemma {:induction false} EntersNames(c: Config)
    ensures Layout(EMPTY_OBJECT, ToNames(c)).cur == NAME_SECTION
  {
    hide Layout, Params;
    LayoutAppend(EMPTY_OBJECT, Params(c), ENTER_NAMES);
    LayoutOne(Layout(EMPTY_OBJECT, Params(c)), ENTER_NAMES[0]);
  }

  lemma {:induction false} EntersAfter(a: seq<Directive>, name: string, flags: string)
    ensures Layout(EMPTY_OBJECT, a + [Section(name, flags), Align(2)]).cur == name
  {
    hide Layout;
    LayoutAppend(EMPTY_OBJECT, a, [Section(name, flags), Align(2)]);
    EnteredSection(Layout(EMPTY_OBJECT, a), name, flags);
  }

  lemma {:induction false} NamesInFile(c: Config, i: nat)
    requires Assembles(MoldierDirectives(c)) && i < |c.libs|
    ensures NameLaid(File(c), c.libs[i])
  {
    hide Layout, Params, Names, Fnids, Fstubs, Headers, Trampolines, MoldierDirectives, NameLaid, Fresh, Assembles;
    var rest := ENTER_FNIDS + Fnids(c.libs) + Fstubs(c.libs) + ENTER_HEADERS + Headers(c.libs) + ENTER_TEXT
        + Trampolines(c.libs);
    AllFresh(c); FileParts(c);
    assert MoldierDirectives(c) == ToNames(c) + Names(c.libs) + rest;
    Middle(ToNames(c), Names(c.libs), rest);
    EntersNames(c);
    var m := Layout(EMPTY_OBJECT, ToNames(c));
    NameEntry(m, c.libs, i);
    NameLaidExtends(Layout(m, Names(c.libs)), File(c), c.libs[i]);
  }

  lemma {:induction false} FnidsInFile(c: Config, i: nat)
    requires Assembles(MoldierDirectives(c)) && i < |c.libs|
    ensures FnidLaid(File(c), c.libs[i])
  {
    hide Layout, Params, Names, Fnids, Fstubs, Headers, Trampolines, MoldierDirectives, FnidLaid, Fresh, Assembles,
      ToNames;
    var rest := Fstubs(c.libs) + ENTER_HEADERS + Headers(c.libs) + ENTER_TEXT + Trampolines(c.libs);
    AllFresh(c); FileParts(c);
    assert MoldierDirectives(c) == ToFnids(c) + Fnids(c.libs) + rest;
    Middle(ToFnids(c), Fnids(c.libs), rest);
    EntersAfter(ToNames(c) + Names(c.libs), FNID_SECTION, "aR");
    var m := Layout(EMPTY_OBJECT, ToFnids(c));
    FnidEntry(m, c.libs, i);
    FnidLaidExtends(Layout(m, Fnids(c.libs)), File(c), c.libs[i]);
  }

  lemma {:induction false} SlotsInFile(c: Config, i: nat)
    requires Assembles(MoldierDirectives(c)) && i < |c.libs|
    ensures FstubLaid(File(c), c.libs[i])
  {
    hide Layout, Params, Names, Fnids, Fstubs, Headers, Trampolines, MoldierDirectives, FstubLaid, Fresh, Assembles,
      ToFnids;
    var rest := ENTER_HEADERS + Headers(c.libs) + ENTER_TEXT + Trampolines(c.libs);
    AllFresh(c); FileParts(c);
    assert MoldierDirectives(c) == ToFstubs(c) + Fstubs(c.libs) + rest;
    Middle(ToFstubs(c), Fstubs(c.libs), rest);
    var m := Layout(EMPTY_OBJECT, ToFstubs(c));
    FstubEntries(m, c.libs);
    FstubLaidExtends(Layout(m, Fstubs(c.libs)), File(c), c.libs[i]);
  }

  lemma {:induction false} TrampolinePlaced(c: Config, i: nat, k: nat)
    requires Assembles(MoldierDirectives(c)) && i < |c.libs| && k < |c.libs[i].functions|
    ensures StubLaid(File(c), c.libs[i].functions[k])
  {
    hide Layout, Params, Names, Fnids, Fstubs, Headers, Trampolines, MoldierDirectives, StubLaid, Fresh, Assembles,
      ToHeaders;
    AllFresh(c); FileParts(c);
    assert ToText(c) + Trampolines(c.libs) + [] == MoldierDirectives(c);
    Middle(ToText(c), Trampolines(c.libs), []);
    EntersAfter(ToHeaders(c) + Headers(c.libs), TEXT_SECTION, "ax");
    TrampolineEntries(Layout(EMPTY_OBJECT, ToText(c)), c.libs);
  }

  // ---------- code ----------

  lemma {:induction false} NoStubsAppend(a: seq<Directive>, b: seq<Directive>)
    requires NoStubs(a) && NoStubs(b)
    ensures NoStubs(a + b)
  {
  }

  lemma {:induction false} DataNoStubs(ds: seq<Directive>)
    requires AllData(ds)
    ensures NoStubs(ds)
  {
  }

  lemma {:induction false} FstubsNoStubs(libs: seq<Library>)
    ensures NoStubs(Fstubs(libs))
  {
    hide FstubDirectives, NoStubs;
    if libs == [] {
      assert NoStubs([]) by { EmptyNoStubs(); }
    } else {
      var lib := libs[|libs| - 1];
      FstubsNoStubs(libs[..|libs| - 1]);
      FstubNoStubs(lib);
      NoStubsAppend(Fstubs(libs[..|libs| - 1]), FstubDirectives(lib));
    }
  }

  lemma {:induction false} EmptyNoStubs()
    ensures NoStubs([])
  {
  }

  lemma {:induction false} FstubNoStubs(lib: Library)
    ensures NoStubs(FstubDirectives(lib))
  {
    hide SlotDirectives;
    FnidIntsData(lib.functions);
    DataNoStubs(SlotDirectives(lib.functions));
    var slots, n := SlotDirectives(lib.functions), lib.name;
    var a := [Section(FstubSection(lib), "aw"), Align(2), Globl(n + "_fstub_table"), Label(n + "_fstub_table")];
    var b := [Globl(n + "_fstub_table_end"), Label(n + "_fstub_table_end")];
    assert NoStubs(a) && NoStubs(b) && FstubDirectives(lib) == a + slots + b;
    hide NoStubs;
    NoStubsAppend(a, slots);
    NoStubsAppend(a + slots, b);
  }

  lemma {:induction false} TrampolinesOnlyStubs(libs: seq<Library>)
    ensures OnlyStubs(Trampolines(libs))
  {
    hide Stubs;
    if libs != [] {
      TrampolinesOnlyStubs(libs[..|libs| - 1]);
      StubsOnly(libs[|libs| - 1].functions);
    }
  }

  lemma {:induction false} StubsOnly(fs: seq<Function>)
    ensures OnlyStubs(Stubs(fs))
  {
    if fs != [] { StubsOnly(fs[..|fs| - 1]); }
  }

  lemma {:induction false} BeforeTextNoStubs(c: Config)
    ensures NoStubs(ToText(c))
  {
    hide NoStubs, Params, Names, Fnids, Fstubs, Headers, AllData;
    NamesData(c.libs);
    DataNoStubs(Names(c.libs)); DataNoStubs(Fnids(c.libs)); DataNoStubs(Headers(c.libs));
    FstubsNoStubs(c.libs);
    FixedNoStubs(c);
    NoStubsAppend(Params(c), ENTER_NAMES);
    NoStubsAppend(ToNames(c), Names(c.libs)); NoStubsAppend(ToNames(c) + Names(c.libs), ENTER_FNIDS);
    NoStubsAppend(ToFnids(c), Fnids(c.libs));
    NoStubsAppend(ToFstubs(c), Fstubs(c.libs)); NoStubsAppend(ToFstubs(c) + Fstubs(c.libs), ENTER_HEADERS);
    NoStubsAppend(ToHeaders(c), Headers(c.libs)); NoStubsAppend(ToHeaders(c) + Headers(c.libs), ENTER_TEXT);
  }

  lemma {:induction false} FixedNoStubs(c: Config)
    ensures NoStubs(Params(c)) && NoStubs(ENTER_NAMES) && NoStubs(ENTER_FNIDS) && NoStubs(ENTER_HEADERS)
    ensures NoStubs(ENTER_TEXT)
  {
  }

  /** The recorded instructions are what their words in the file say, and they
      are all in the trampoline section. */
  lemma {:induction false} CodeInFile(c: Config)
    requires Assembles(MoldierDirectives(c))
    ensures CodeWritten(File(c)) && CodeOnlyIn(File(c), TEXT_SECTION)
  {
    hide Layout, MoldierDirectives, Fresh, Assembles, NoStubs, OnlyStubs, Trampolines, ToHeaders, WrittenAt;
    AllFresh(c);
    LayoutWritten(EMPTY_OBJECT, MoldierDirectives(c));
    FileParts(c);
    LayoutAppend(EMPTY_OBJECT, ToText(c), Trampolines(c.libs));
    BeforeTextNoStubs(c);
    LayoutNoCode(EMPTY_OBJECT, ToText(c));
    EntersAfter(ToHeaders(c) + Headers(c.libs), TEXT_SECTION, "ax");
    TrampolinesOnlyStubs(c.libs);
    LayoutStubs(Layout(EMPTY_OBJECT, ToText(c)), Trampolines(c.libs));
  }

  /** A function's label marks sixteen instructions, each with its word in the file. */
  lemma {:induction false} TrampolinesInFile(c: Config, i: nat, k: nat)
    requires Assembles(MoldierDirectives(c)) && i < |c.libs| && k < |c.libs[i].functions|
    ensures StubLaid(File(c), c.libs[i].functions[k])
    ensures var f := c.libs[i].functions[k].name;
      forall w :: 0 <= w < 16 ==> WrittenAt(File(c), Place(TEXT_SECTION, File(c).labels[f].off + 4 * w), StubInsns(f)[w])
  {
    hide Assembles, File, MoldierDirectives, StubInsns, WrittenAt;
    TrampolinePlaced(c, i, k);
    CodeInFile(c);
  }

  // ---------- sections entered once ----------

  lemma {:induction false} AvoidsAppend(a: seq<Directive>, b: seq<Directive>, s: string)
    ensures Avoids(a + b, s) <==> Avoids(a, s) && Avoids(b, s)
  {
    if Avoids(a + b, s) {
      assert forall i :: 0 <= i < |a| ==> (a + b)[i] == a[i];
      assert forall i :: 0 <= i < |b| ==> (a + b)[|a| + i] == b[i];
    }
  }

  lemma {:induction false} DataAvoids(ds: seq<Directive>, s: string)
    requires AllData(ds)
    ensures Avoids(ds, s)
  {
  }

  lemma {:induction false} StubsAvoid(fs: seq<Function>, s: string)
    ensures Avoids(Stubs(fs), s)
  {
    if fs != [] { StubsAvoid(fs[..|fs| - 1], s); }
  }

  lemma {:induction false} TrampolinesAvoid(libs: seq<Library>, s: string)
    ensures Avoids(Trampolines(libs), s)
  {
    hide Stubs;
    if libs != [] {
      TrampolinesAvoid(libs[..|libs| - 1], s);
      StubsAvoid(libs[|libs| - 1].functions, s);
    }
  }

  lemma {:induction false} FstubAvoids(lib: Library, s: string)
    requires |s| < 2 || s[1] != 'd'
    ensures Avoids(FstubDirectives(lib), s)
  {
    hide SlotDirectives, FstubDirectives, AllData, Avoids;
    var ft, fe := lib.name + "_fstub_table", lib.name + "_fstub_table_end";
    var enter, head, end := [Section(FstubSection(lib), "aw"), Align(2)], [Globl(ft), Label(ft)],
        [Globl(fe), Label(fe)];
    FstubParts(lib);
    FnidIntsData(lib.functions);
    HeadData(ft); HeadData(fe);
    AllDataAppend(head, SlotDirectives(lib.functions));
    AllDataAppend(head + SlotDirectives(lib.functions), end);
    DataAvoids(head + SlotDirectives(lib.functions) + end, s);
    EnterAvoids(FstubSection(lib), s);
    AvoidsAppend(enter, head + SlotDirectives(lib.functions) + end, s);
  }

  lemma {:induction false} EnterAvoids(name: string, s: string)
    requires (|s| < 2 || s[1] != 'd') && |name| > 1 && name[1] == 'd'
    ensures Avoids([Section(name, "aw"), Align(2)], s)
  {
  }

  lemma {:induction false} FstubsAvoid(libs: seq<Library>, s: string)
    requires |s| < 2 || s[1] != 'd'
    ensures Avoids(Fstubs(libs), s)
  {
    if libs != [] {
      hide Avoids, AllData, FstubDirectives, SlotDirectives;
      var lib := libs[|libs| - 1];
      FstubsAvoid(libs[..|libs| - 1], s);
      FstubAvoids(lib, s);
      AvoidsAppend(Fstubs(libs[..|libs| - 1]), FstubDirectives(lib), s);
    } else {
      assert Avoids([], s);
    }
  }

  /** `.lib.stub` is entered once, so it holds the headers and nothing else. */
  lemma {:induction false} HeadersInFile(c: Config)
    requires Assembles(MoldierDirectives(c))
    ensures HeadersLaid(File(c), c.libs)
  {
    hide Layout, Params, Names, Fnids, Fstubs, Headers, Trampolines, MoldierDirectives, Fresh, Assembles, ToFstubs,
      Labels, HeaderTable, Payload;
    var before := ToFstubs(c) + Fstubs(c.libs);
    AllFresh(c); FileParts(c);
    assert MoldierDirectives(c) == before + ENTER_HEADERS + (Headers(c.libs) + ENTER_TEXT + Trampolines(c.libs));
    Middle(before, ENTER_HEADERS, Headers(c.libs) + ENTER_TEXT + Trampolines(c.libs));
    BeforeHeadersAvoid(c);
    LayoutAvoids(EMPTY_OBJECT, before, HEADER_SECTION);
    var o := Layout(EMPTY_OBJECT, before);
    G.EnterEmpty(o, HEADER_SECTION, "awR");
    var m := Layout(EMPTY_OBJECT, ToHeaders(c));
    assert m == Layout(o, ENTER_HEADERS);
    var rest := ENTER_TEXT + Trampolines(c.libs);
    assert MoldierDirectives(c) == ToHeaders(c) + Headers(c.libs) + rest;
    Middle(ToHeaders(c), Headers(c.libs), rest);
    var h := Layout(m, Headers(c.libs));
    HeadersAssembled(m, c.libs);
    AfterHeaders(h, c.libs);
    forall i | 0 <= i < |c.libs| ensures BoundTo(File(c), c.libs[i].name + "_prx_header", Place(HEADER_SECTION, 44 * i)) {
      HeaderEntry(m, c.libs, i);
    }
  }

  lemma {:induction false} BeforeHeadersAvoid(c: Config)
    ensures Avoids(ToFstubs(c) + Fstubs(c.libs), HEADER_SECTION)
  {
    hide Avoids, Params, Names, Fnids, Fstubs, AllData;
    G.SectionsDistinct();
    G.ParamsAvoidOne(c, HEADER_SECTION);
    NamesData(c.libs);
    DataAvoids(Names(c.libs), HEADER_SECTION);
    DataAvoids(Fnids(c.libs), HEADER_SECTION);
    FstubsAvoid(c.libs, HEADER_SECTION);
    AvoidsAppend(ToFstubs(c), Fstubs(c.libs), HEADER_SECTION);
    AvoidsAppend(ToFnids(c), Fnids(c.libs), HEADER_SECTION);
    AvoidsAppend(ToNames(c) + Names(c.libs), ENTER_FNIDS, HEADER_SECTION);
    AvoidsAppend(ToNames(c), Names(c.libs), HEADER_SECTION);
    AvoidsAppend(Params(c), ENTER_NAMES, HEADER_SECTION);
    assert Avoids(ENTER_NAMES, HEADER_SECTION) && Avoids(ENTER_FNIDS, HEADER_SECTION) by { EntersAvoid(); }
  }

  lemma {:induction false} EntersAvoid()
    ensures Avoids(ENTER_NAMES, HEADER_SECTION) && Avoids(ENTER_FNIDS, HEADER_SECTION)
  {
    G.SectionsDistinct();
  }

  lemma {:induction false} HeadersAssembled(m: Object, libs: seq<Library>)
    requires Wf(m) && m.cur == HEADER_SECTION && m.contents[HEADER_SECTION] == []
    ensures var r := Layout(m, Headers(libs));
      r.cur == HEADER_SECTION && HEADER_SECTION in r.contents && r.contents[HEADER_SECTION] == HeaderTable(libs)
  {
    hide Layout, Headers, HeaderTable, Payload, AllData;
    NamesData(libs);
    DataLaid(m, Headers(libs));
    HeaderTablePayload(libs);
    assert [] + HeaderTable(libs) == HeaderTable(libs);
  }

  lemma {:induction false} AfterHeaders(h: Object, libs: seq<Library>)
    requires Wf(h) && h.cur == HEADER_SECTION && Fresh(h, ENTER_TEXT + Trampolines(libs))
    ensures var r := Layout(h, ENTER_TEXT + Trampolines(libs));
      HEADER_SECTION in r.contents && r.contents[HEADER_SECTION] == h.contents[HEADER_SECTION]
  {
    hide Layout, Trampolines, Fresh, Avoids, Step;
    var enter, rest := [Section(TEXT_SECTION, "ax")], [Align(2)] + Trampolines(libs);
    assert ENTER_TEXT + Trampolines(libs) == enter + rest;
    Sequence(h, enter, rest);
    LayoutOne(h, enter[0]);
    G.SectionsDistinct();
    TrampolinesAvoid(libs, HEADER_SECTION);
    AvoidsAppend([Align(2)], Trampolines(libs), HEADER_SECTION);
    assert Avoids([Align(2)], HEADER_SECTION) by { AlignAvoids(); }
    SectionStep(h, TEXT_SECTION, "ax");
    LayoutAvoids(Layout(h, enter), rest, HEADER_SECTION);
  }

  lemma {:induction false} AlignAvoids()
    ensures Avoids([Align(2)], HEADER_SECTION)
  {
  }

  lemma {:induction false} SectionStep(h: Object, name: string, flags: string)
    requires h.cur in h.contents
    ensures var r := Step(h, Section(name, flags));
      r.cur == name && forall s :: s in h.contents ==> s in r.contents && r.contents[s] == h.contents[s]
  {
  }

  // ---------- the parameter blocks ----------

  /** The big-endian words at `at` are `vs`. */
  predicate WordsAre(b: seq<byte>, at: nat, vs: seq<nat>) {
    at + 4 * |vs| <= |b| && forall k :: 0 <= k < |vs| ==> U32(b[at + 4 * k..at + 4 * k + 4]) as int == vs[k]
  }

  /** The process parameters: size, magic, version, SDK version, priority, stack
      size, page size and segment. */
  predicate ProcessBlock(b: seq<byte>, c: Config) {
    |b| == 32
    && WordsAre(b, 0, [0x20, 0x13bcc5f6, 0x9000, 0x192001, c.primaryPrio, c.primaryStackSize, 0x100000, 0])
  }

  /** The PRX parameters before patching: size, magic and version, room for the four
      bounds, flags. */
  predicate PrxBlock(b: seq<byte>) {
    |b| == 40 && WordsAre(b, 0, [0x28, 0x1b434cec, 2, 0, 0, 0, 0, 0])
    && U16(b[32..34]) == 0x0101 && U16(b[34..36]) == 0 && WordsAre(b, 36, [0])
  }

  /** Both blocks in the assembled file, each at its label. */
  lemma {:induction false} ParamsInFile(c: Config)
    requires Assembles(MoldierDirectives(c))
    ensures var o := File(c);
      && ".sys_proc_param" in o.contents && ProcessBlock(o.contents[".sys_proc_param"], c)
      && ".sys_proc_prx_param" in o.contents && PrxBlock(o.contents[".sys_proc_prx_param"])
      && BoundTo(o, "sys_process_param", Place(".sys_proc_param", 0))
      && BoundTo(o, "sys_proc_prx_param", Place(".sys_proc_prx_param", 0))
  {
    hide Layout, ParamDirectives, LibraryBlocks, Fresh, Assembles, Labels, ProcessBlock, PrxBlock;
    AllFresh(c);
    assert MoldierDirectives(c) == ParamDirectives(c) + PRX_DIRECTIVES + LibraryBlocks(c.libs);
    Middle(ParamDirectives(c), PRX_DIRECTIVES, LibraryBlocks(c.libs));
    ParamNames();
    ParamAvoidsPrx(c);
    LayoutAvoids(EMPTY_OBJECT, ParamDirectives(c), PRX_SECTION);
    var o := Layout(EMPTY_OBJECT, ParamDirectives(c));
    var m := Layout(o, PRX_DIRECTIVES);
    ProcessLaid(c);
    PrxLaid(o);
    AfterParams(m, c.libs, ".sys_proc_param");
    AfterParams(m, c.libs, PRX_SECTION);
  }

  lemma {:induction false} ParamNames()
    ensures ".sys_proc_param" != PRX_SECTION && ".sys_proc_param" != ".text" && PRX_SECTION != ".text"
  {
    assert |".sys_proc_param"| == 15 && |PRX_SECTION| == 19 && |".text"| == 5;
  }

  /** The PRX parameter block is 40 bytes. */
  lemma {:induction false} PrxParamsInFile(c: Config)
    requires Assembles(MoldierDirectives(c))
    ensures PRX_SECTION in File(c).contents && |File(c).contents[PRX_SECTION]| == 40
  {
    hide File, Assembles, MoldierDirectives, WordsAre;
    ParamsInFile(c);
  }

  lemma {:induction false} ParamAvoidsPrx(c: Config)
    ensures Avoids(ParamDirectives(c), PRX_SECTION)
  {
    assert |".sys_proc_param"| == 15 && |PRX_SECTION| == 19;
  }

  /** Entering a new section, aligning and labelling its start, then data. */
  lemma {:induction false} BlockLaid(o: Object, name: string, flags: string, log2: nat, l: string, data: seq<Directive>)
    requires o.cur in o.contents && name !in o.contents && AllData(data) && NoLabels(data)
    ensures var r := Layout(o, [Section(name, flags), Align(log2), Globl(l), Label(l)] + data);
      && r.cur == name && r.contents == o.contents[name := Payload(data)]
      && r.labels == o.labels[l := Place(name, 0)]
  {
    hide Layout, Payload;
    var a, b := [Section(name, flags), Align(log2)], [Globl(l), Label(l)];
    LayoutAppend(o, a + b, data);
    assert a + b == [Section(name, flags), Align(log2), Globl(l), Label(l)];
    LayoutAppend(o, a, b);
    LayoutTwo(o, a[0], a[1]);
    LayoutTwo(Layout(o, a), b[0], b[1]);
    var m := Layout(o, a + b);
    assert m.cur == name && m.contents == o.contents[name := []] && m.labels == o.labels[l := Place(name, 0)];
    DataLaid(m, data);
    LabelsKept(m, data);
    assert [] + Payload(data) == Payload(data);
  }

  predicate NoLabels(ds: seq<Directive>) {
    forall i :: 0 <= i < |ds| ==> !ds[i].Label? && !ds[i].DefineStub?
  }

  lemma {:induction false} LabelsKept(o: Object, ds: seq<Directive>)
    requires o.cur in o.contents && NoLabels(ds)
    ensures Layout(o, ds).labels == o.labels
  {
    hide BE, TextBytes;
    if ds != [] { LabelsKept(o, ds[..|ds| - 1]); }
  }

  /** One more word. */
  lemma {:induction false} WordsAppend(b: seq<byte>, vs: seq<nat>, v: u32)
    requires WordsAre(b, 0, vs) && |b| == 4 * |vs|
    ensures WordsAre(b + BE(v, 4), 0, vs + [v])
  {
    hide BE, U32;
    FieldRoundTrip32(v);
    var p, ws, n := b + BE(v, 4), vs + [v as nat], |vs|;
    forall k | 0 <= k < |ws| ensures U32(p[0 + 4 * k..0 + 4 * k + 4]) as int == ws[k] {
      if k < n {
        assert p[0 + 4 * k..0 + 4 * k + 4] == b[0 + 4 * k..0 + 4 * k + 4];
      } else {
        assert p[4 * n..4 * n + 4] == BE(v, 4);
      }
    }
  }

  /** Words in a row. */
  lemma {:induction false} WordsLaid(ds: seq<Directive>, vs: seq<nat>)
    requires |vs| == |ds| && forall i :: 0 <= i < |ds| ==> ds[i] == Int(vs[i]) && vs[i] < TWO32
    ensures |Payload(ds)| == 4 * |ds| && WordsAre(Payload(ds), 0, vs)
  {
    hide BE, WordsAre;
    if ds == [] {
      NoWords(vs);
    } else {
      var n := |ds| - 1;
      WordsLaid(ds[..n], vs[..n]);
      WordsAppend(Payload(ds[..n]), vs[..n], vs[n]);
      assert vs[..n] + [vs[n]] == vs;
    }
  }

  lemma {:induction false} NoWords(vs: seq<nat>)
    requires vs == []
    ensures WordsAre([], 0, vs)
  {
  }

  lemma {:induction false} ProcessLaid(c: Config)
    ensures var r := Layout(EMPTY_OBJECT, ParamDirectives(c));
      && ".sys_proc_param" in r.contents && ProcessBlock(r.contents[".sys_proc_param"], c)
      && r.labels == map["sys_process_param" := Place(".sys_proc_param", 0)]
      && r.cur == ".sys_proc_param" && PRX_SECTION !in r.contents
  {
    hide Layout, Payload, WordsAre;
    var data := ParamDirectives(c)[4..];
    var vs: seq<nat> := [0x20, 0x13bcc5f6, 0x9000, 0x192001, c.primaryPrio, c.primaryStackSize, 0x100000, 0];
    assert ParamDirectives(c) == [Section(".sys_proc_param", "aR"), Align(3), Globl("sys_process_param"), Label("sys_process_param")] + data;
    ParamNames();
    BlockLaid(EMPTY_OBJECT, ".sys_proc_param", "aR", 3, "sys_process_param", data);
    WordsLaid(data, vs);
  }

  lemma {:induction false} PrxLaid(o: Object)
    requires Wf(o) && PRX_SECTION !in o.contents
    ensures var r := Layout(o, PRX_DIRECTIVES);
      && r.cur == PRX_SECTION && r.contents == o.contents[PRX_SECTION := r.contents[PRX_SECTION]]
      && PRX_SECTION in r.contents && PrxBlock(r.contents[PRX_SECTION])
      && r.labels == o.labels["sys_proc_prx_param" := Place(PRX_SECTION, 0)]
  {
    hide Layout, Payload, PrxBlock;
    var data := PRX_DIRECTIVES[4..];
    assert PRX_DIRECTIVES == [Section(PRX_SECTION, "aR"), Align(2), Globl("sys_proc_prx_param"), Label("sys_proc_prx_param")] + data;
    BlockLaid(o, PRX_SECTION, "aR", 2, "sys_proc_prx_param", data);
    PrxPayload();
  }

  lemma {:induction false} PrxPayload()
    ensures PrxBlock(Payload(PRX_DIRECTIVES[4..]))
  {
    hide Payload, BytesOf, U32, U16, BE;
    var d := PRX_DIRECTIVES[4..];
    var words, halves, last := d[..8], d[8..10], d[10..];
    assert d == words + halves + last;
    PayloadAppend(words, halves);
    PayloadAppend(words + halves, last);
    WordsLaid(words, [0x28, 0x1b434cec, 2, 0, 0, 0, 0, 0]);
    WordsLaid(last, [0]);
    assert halves == [Short(0x0101)] + [Short(0)];
    PayloadAppend([Short(0x0101)], [Short(0)]);
    PayloadOne(Short(0x0101)); PayloadOne(Short(0));
    HalfBytes(0x0101); HalfBytes(0);
    FieldRoundTrip16(0x0101); FieldRoundTrip16(0);
    PrxJoined(Payload(words), BE(0x0101, 2), BE(0, 2), Payload(last));
  }

  lemma {:induction false} PrxJoined(a: seq<byte>, h: seq<byte>, l: seq<byte>, z: seq<byte>)
    requires |a| == 32 && |h| == |l| == 2 && |z| == 4 && U16(h) == 0x0101 && U16(l) == 0
    requires WordsAre(a, 0, [0x28, 0x1b434cec, 2, 0, 0, 0, 0, 0]) && WordsAre(z, 0, [0])
    ensures PrxBlock(a + (h + l) + z)
  {
    hide U32, U16;
    var b := a + (h + l) + z;
    var vs: seq<nat> := [0x28, 0x1b434cec, 2, 0, 0, 0, 0, 0];
    forall k | 0 <= k < 8 ensures U32(b[0 + 4 * k..0 + 4 * k + 4]) as int == vs[k] {
      assert b[0 + 4 * k..0 + 4 * k + 4] == a[0 + 4 * k..0 + 4 * k + 4];
    }
    assert b[32..34] == h && b[34..36] == l && b[36..40] == z[0..4];
  }

  lemma {:induction false} AfterParams(h: Object, libs: seq<Library>, s: string)
    requires Wf(h) && Fresh(h, LibraryBlocks(libs)) && s in h.contents
    requires s == ".sys_proc_param" || s == PRX_SECTION
    ensures var r := Layout(h, LibraryBlocks(libs)); s in r.contents && r.contents[s] == h.contents[s]
    ensures forall l :: l in h.labels ==> l in Layout(h, LibraryBlocks(libs)).labels
    ensures forall l :: l in h.labels ==> Layout(h, LibraryBlocks(libs)).labels[l] == h.labels[l]
  {
    hide Layout, Names, Fnids, Fstubs, Headers, Trampolines, Fresh, Avoids, Step;
    var rest := Names(libs) + ENTER_FNIDS + Fnids(libs) + Fstubs(libs) + ENTER_HEADERS + Headers(libs) + ENTER_TEXT
        + Trampolines(libs);
    assert LibraryBlocks(libs) == ENTER_NAMES + rest;
    Sequence(h, ENTER_NAMES, rest);
    LayoutOne(h, ENTER_NAMES[0]);
    SectionStep(h, NAME_SECTION, "aR");
    BlocksAvoid(libs, s);
    assert |NAME_SECTION| == 19 && |".sys_proc_param"| == 15 && NAME_SECTION[1] != PRX_SECTION[1];
    LayoutAvoids(Layout(h, ENTER_NAMES), rest, s);
  }

  lemma {:induction false} BlocksAvoid(libs: seq<Library>, s: string)
    requires s == ".sys_proc_param" || s == PRX_SECTION
    ensures Avoids(Names(libs) + ENTER_FNIDS + Fnids(libs) + Fstubs(libs) + ENTER_HEADERS + Headers(libs) + ENTER_TEXT
        + Trampolines(libs), s)
  {
    hide Avoids, Names, Fnids, Fstubs, Headers, Trampolines, AllData;
    var a := Names(libs) + ENTER_FNIDS;
    NamesData(libs);
    DataAvoids(Names(libs), s); DataAvoids(Fnids(libs), s); DataAvoids(Headers(libs), s);
    EntersAvoidParams(s);
    FstubsAvoid(libs, s);
    TrampolinesAvoid(libs, s);
    AvoidsAppend(Names(libs), ENTER_FNIDS, s);
    AvoidsAppend(a, Fnids(libs), s);
    AvoidsAppend(a + Fnids(libs), Fstubs(libs), s);
    AvoidsAppend(a + Fnids(libs) + Fstubs(libs), ENTER_HEADERS, s);
    AvoidsAppend(a + Fnids(libs) + Fstubs(libs) + ENTER_HEADERS, Headers(libs), s);
    AvoidsAppend(a + Fnids(libs) + Fstubs(libs) + ENTER_HEADERS + Headers(libs), ENTER_TEXT, s);
    AvoidsAppend(a + Fnids(libs) + Fstubs(libs) + ENTER_HEADERS + Headers(libs) + ENTER_TEXT, Trampolines(libs), s);
  }

  lemma {:induction false} EntersAvoidParams(s: string)
    requires s == ".sys_proc_param" || s == PRX_SECTION
    ensures Avoids(ENTER_FNIDS, s) && Avoids(ENTER_HEADERS, s) && Avoids(ENTER_TEXT, s) && |s| > 1 && s[1] == 's'
  {
    assert |FNID_SECTION| == 15 && |HEADER_SECTION| == 9 && |TEXT_SECTION| == 13 && |PRX_SECTION| == 19;
    assert |".sys_proc_param"| == 15 && FNID_SECTION[1] == 'r';
  }
}
