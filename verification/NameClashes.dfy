/** Exactly which configurations assemble. */
module NameClashes {
  import opened Lists
  import opened Encoder
  import opened Assembly
  import opened Config
  import opened LabelNames
  import G = Generators

  function LibNames(libs: seq<Library>): (r: seq<string>)
    ensures |r| == |libs|
    ensures forall i :: 0 <= i < |r| ==> r[i] == libs[i].name
  {
    if libs == [] then [] else LibNames(libs[..|libs| - 1]) + [libs[|libs| - 1].name]
  }

  function NamesOf(fs: seq<Function>): (r: seq<string>)
    ensures |r| == |fs|
    ensures forall i :: 0 <= i < |r| ==> r[i] == fs[i].name
  {
    if fs == [] then [] else NamesOf(fs[..|fs| - 1]) + [fs[|fs| - 1].name]
  }

  /** The function names of all libraries, in order. */
  function FunctionNames(libs: seq<Library>): seq<string> {
    if libs == [] then [] else FunctionNames(libs[..|libs| - 1]) + NamesOf(libs[|libs| - 1].functions)
  }

  /** No two functions share a name, and no function is named like a label the
      generator makes up. */
  ghost predicate NamesOk(libs: seq<Library>) {
    && NoDup(FunctionNames(libs))
    && forall f :: f in FunctionNames(libs) ==>
         && f != "sys_process_param" && f != "sys_proc_prx_param"
         && (forall l, k :: l in LibNames(libs) ==> f != l + Suffix(k))
         && (forall g :: g in FunctionNames(libs) ==> f != g + "_stub")
  }

  // ---------- how often an owner occurs ----------

  ghost function Count(libs: seq<Library>, o: Owner): nat {
    match o
    case OfLib(l, _) => Times(LibNames(libs), l)
    case SlotOf(f) => Times(FunctionNames(libs), f)
    case EntryOf(f) => Times(FunctionNames(libs), f)
    case _ => 1
  }

  lemma {:induction false} CountSlots(fs: seq<Function>, o: Owner)
    ensures Times(SlotOwners(fs), o) == if o.SlotOf? then Times(NamesOf(fs), o.fn) else 0
    ensures Times(StubOwners(fs), o) == if o.EntryOf? then Times(NamesOf(fs), o.fn) else 0
  {
    hide Times;
    if fs == [] {
      TimesNone(o);
      if o.SlotOf? || o.EntryOf? { TimesNone(o.fn); }
    } else {
      var init, n := fs[..|fs| - 1], fs[|fs| - 1].name;
      CountSlots(init, o);
      TimesAppend(SlotOwners(init), [SlotOf(n)], o); TimesOne(SlotOf(n), o);
      TimesAppend(StubOwners(init), [EntryOf(n)], o); TimesOne(EntryOf(n), o);
      if o.SlotOf? || o.EntryOf? { TimesAppend(NamesOf(init), [n], o.fn); TimesOne(n, o.fn); }
    }
  }

  /** The occurrences of `o` among one label of kind `k` per library. */
  ghost function PerLib(libs: seq<Library>, k: Kind, o: Owner): nat {
    if o.OfLib? && o.kind == k then Times(LibNames(libs), o.lib) else 0
  }

  lemma {:induction false} PerLibStep(init: seq<Library>, l: Library, k: Kind, o: Owner)
    ensures PerLib(init + [l], k, o) == PerLib(init, k, o) + Times([OfLib(l.name, k)], o)
    ensures PerLib([], k, o) == 0
  {
    hide Times;
    assert (init + [l])[..|init|] == init;
    TimesOne(OfLib(l.name, k), o);
    if o.OfLib? {
      TimesAppend(LibNames(init), [l.name], o.lib);
      TimesOne(l.name, o.lib);
      TimesNone(o.lib);
    }
  }

  lemma {:induction false} CountBlocks(libs: seq<Library>, o: Owner)
    ensures Times(NameOwners(libs), o) == PerLib(libs, LibName, o)
    ensures Times(FnidOwners(libs), o) == PerLib(libs, FnidTable, o) + PerLib(libs, FnidEnd, o)
    ensures Times(HeaderOwners(libs), o) == PerLib(libs, PrxHeader, o)
  {
    hide Times, PerLib;
    if libs == [] {
      TimesNone(o);
      forall k: Kind ensures PerLib([], k, o) == 0 { PerLibStep([], Library("", 0, []), k, o); }
    } else {
      var init, l := libs[..|libs| - 1], libs[|libs| - 1];
      assert libs == init + [l];
      CountBlocks(init, o);
      PerLibStep(init, l, LibName, o); PerLibStep(init, l, FnidTable, o);
      PerLibStep(init, l, FnidEnd, o); PerLibStep(init, l, PrxHeader, o);
      TimesAppend(NameOwners(init), [OfLib(l.name, LibName)], o);
      TimesAppend(FnidOwners(init), [OfLib(l.name, FnidTable), OfLib(l.name, FnidEnd)], o);
      assert [OfLib(l.name, FnidTable), OfLib(l.name, FnidEnd)]
          == [OfLib(l.name, FnidTable)] + [OfLib(l.name, FnidEnd)];
      TimesAppend([OfLib(l.name, FnidTable)], [OfLib(l.name, FnidEnd)], o);
      TimesAppend(HeaderOwners(init), [OfLib(l.name, PrxHeader)], o);
    }
  }

  ghost function PerFunction(libs: seq<Library>, o: Owner): nat {
    if o.SlotOf? || o.EntryOf? then Times(FunctionNames(libs), o.fn) else 0
  }

  lemma {:induction false} PerFunctionStep(init: seq<Library>, l: Library, o: Owner)
    ensures PerFunction(init + [l], o)
         == PerFunction(init, o) + Times(SlotOwners(l.functions), o) + Times(StubOwners(l.functions), o)
    ensures PerFunction([], o) == 0
  {
    hide Times, SlotOwners, StubOwners;
    assert (init + [l])[..|init|] == init;
    CountSlots(l.functions, o);
    if o.SlotOf? || o.EntryOf? {
      TimesAppend(FunctionNames(init), NamesOf(l.functions), o.fn);
      TimesNone(o.fn);
    }
  }

  lemma {:induction false} CountFunctionBlocks(libs: seq<Library>, o: Owner)
    ensures Times(FstubOwners(libs), o) + Times(EntryOwners(libs), o)
         == PerLib(libs, FstubTable, o) + PerLib(libs, FstubEnd, o) + PerFunction(libs, o)
  {
    hide Times, PerLib, PerFunction;
    if libs == [] {
      TimesNone(o);
      forall k: Kind ensures PerLib([], k, o) == 0 { PerLibStep([], Library("", 0, []), k, o); }
      PerFunctionStep([], Library("", 0, []), o);
    } else {
      var init, l := libs[..|libs| - 1], libs[|libs| - 1];
      assert libs == init + [l];
      var a, b, c := [OfLib(l.name, FstubTable)], SlotOwners(l.functions), [OfLib(l.name, FstubEnd)];
      CountFunctionBlocks(init, o);
      PerLibStep(init, l, FstubTable, o); PerLibStep(init, l, FstubEnd, o);
      PerFunctionStep(init, l, o);
      TimesAppend(FstubOwners(init), a + b + c, o);
      TimesAppend(a + b, c, o);
      TimesAppend(a, b, o);
      TimesAppend(EntryOwners(init), StubOwners(l.functions), o);
    }
  }

  lemma {:induction false} CountOwner(libs: seq<Library>, o: Owner)
    ensures Times(Owners(libs), o) == Count(libs, o)
  {
    hide NameOwners, FnidOwners, FstubOwners, HeaderOwners, EntryOwners, LibNames, FunctionNames, Times;
    CountBlocks(libs, o);
    CountFunctionBlocks(libs, o);
    var p := [ProcessParam, PrxParam];
    assert p == [ProcessParam] + [PrxParam];
    TimesAppend([ProcessParam], [PrxParam], o); TimesOne(ProcessParam, o); TimesOne(PrxParam, o);
    TimesAppend(p, NameOwners(libs), o);
    TimesAppend(p + NameOwners(libs), FnidOwners(libs), o);
    TimesAppend(p + NameOwners(libs) + FnidOwners(libs), FstubOwners(libs), o);
    TimesAppend(p + NameOwners(libs) + FnidOwners(libs) + FstubOwners(libs), HeaderOwners(libs), o);
    TimesAppend(p + NameOwners(libs) + FnidOwners(libs) + FstubOwners(libs) + HeaderOwners(libs), EntryOwners(libs), o);
  }

  /** An owner has a label in the file exactly if its library or function is configured. */
  predicate Configured(libs: seq<Library>, o: Owner) {
    match o
    case OfLib(l, _) => l in LibNames(libs)
    case SlotOf(f) => f in FunctionNames(libs)
    case EntryOf(f) => f in FunctionNames(libs)
    case _ => true
  }

  lemma {:induction false} OwnerPresent(libs: seq<Library>, o: Owner)
    ensures o in Owners(libs) <==> Configured(libs, o)
  {
    hide Owners, LibNames, FunctionNames, Times;
    CountOwner(libs, o);
    TimesIn(Owners(libs), o);
    match o {
      case OfLib(l, _) => TimesIn(LibNames(libs), l);
      case SlotOf(f) => TimesIn(FunctionNames(libs), f);
      case EntryOf(f) => TimesIn(FunctionNames(libs), f);
      case _ =>
    }
  }

  lemma {:induction false} OwnersDistinct(libs: seq<Library>)
    requires KeyOrdered(libs)
    ensures NoDup(Owners(libs)) <==> NoDup(FunctionNames(libs))
  {
    hide Owners, LibNames, FunctionNames, Less, Times, NoDup;
    LibsDistinct(libs);
    NoDupIffCounts(Owners(libs));
    NoDupIffCounts(FunctionNames(libs));
    NoDupIffCounts(LibNames(libs));
    forall o: Owner ensures Times(Owners(libs), o) == Count(libs, o) { CountOwner(libs, o); }
    forall f: string ensures Times(Owners(libs), EntryOf(f)) == Times(FunctionNames(libs), f) { CountOwner(libs, EntryOf(f)); }
  }

  lemma {:induction false} LibsDistinct(libs: seq<Library>)
    requires KeyOrdered(libs)
    ensures NoDup(LibNames(libs))
  {
    hide Less, LibNames;
    forall i, j | 0 <= i < j < |libs| ensures libs[i].name != libs[j].name {
      assert Less(libs[i].name, libs[j].name);
      LessIrreflexive(libs[i].name);
    }
  }

  /** The labels of the owners clash exactly when some bare function name does. */
  lemma {:induction false} Clashes(libs: seq<Library>)
    requires KeyOrdered(libs)
    ensures NoDup(LabelsOf(Owners(libs))) <==> NamesOk(libs)
  {
    hide Owners, LibNames, FunctionNames, LabelsOf, KeyOrdered, Suffix;
    var os := Owners(libs);
    NoDupMap(os, LabelsOf(os), o => LabelOf(o));
    OwnersDistinct(libs);
    forall o: Owner ensures o in os <==> Configured(libs, o) { OwnerPresent(libs, o); }
    if NamesOk(libs) {
      forall a, b | a in os && b in os && LabelOf(a) == LabelOf(b) ensures a == b {
        if !a.EntryOf? && !b.EntryOf? { LabelsInjective(a, b); }
      }
    } else if forall a, b :: a in os && b in os && LabelOf(a) == LabelOf(b) ==> a == b {
      forall f | f in FunctionNames(libs)
        ensures f != "sys_process_param" && f != "sys_proc_prx_param"
        ensures forall l, k :: l in LibNames(libs) ==> f != l + Suffix(k)
        ensures forall g :: g in FunctionNames(libs) ==> f != g + "_stub"
      {
        assert LabelOf(EntryOf(f)) == f && EntryOf(f) in os;
        assert LabelOf(ProcessParam) == "sys_process_param" && LabelOf(PrxParam) == "sys_proc_prx_param";
        forall l, k | l in LibNames(libs) ensures f != l + Suffix(k) { assert LabelOf(OfLib(l, k)) == l + Suffix(k); }
        forall g | g in FunctionNames(libs) ensures f != g + "_stub" { assert LabelOf(SlotOf(g)) == g + "_stub"; }
      }
    }
  }

  // ---------- values in range ----------

  predicate CountsFit(libs: seq<Library>) {
    forall i :: 0 <= i < |libs| ==> |libs[i].functions| < 0x1_0000
  }

  predicate LibNamesPlain(libs: seq<Library>) {
    forall i :: 0 <= i < |libs| ==> Plain(libs[i].name)
  }

  lemma {:induction false} IntsInRange(fs: seq<Function>)
    ensures InRange(FnidInts(fs)) && InRange(SlotDirectives(fs)) && InRange(Stubs(fs))
  {
    if fs != [] {
      IntsInRange(fs[..|fs| - 1]);
      var f := fs[|fs| - 1];
      G.InRangeAppend(FnidInts(fs[..|fs| - 1]), [Int(f.fnid)]);
      G.InRangeAppend(SlotDirectives(fs[..|fs| - 1]), [Globl(f.name + "_stub"), Label(f.name + "_stub"), Int(0)]);
      G.InRangeAppend(Stubs(fs[..|fs| - 1]), [DefineStub(f.name)]);
    }
  }

  lemma {:induction false} ItemsInRange(l: Library)
    requires Plain(l.name)
    ensures InRange(NameDirectives(l)) && InRange(FnidDirectives(l)) && InRange(FstubDirectives(l))
    ensures InRange(HeaderDirectives(l)) <==> |l.functions| < 0x1_0000
  {
    hide FnidInts, SlotDirectives;
    IntsInRange(l.functions);
    if InRange(HeaderDirectives(l)) { assert HeaderDirectives(l)[4] == Short(|l.functions|); }
  }

  lemma {:induction false} BlocksInRange(libs: seq<Library>)
    requires LibNamesPlain(libs)
    ensures InRange(Names(libs)) && InRange(Fnids(libs)) && InRange(Fstubs(libs)) && InRange(Trampolines(libs))
    ensures InRange(Headers(libs)) <==> CountsFit(libs)
  {
    hide InRange, NameDirectives, FnidDirectives, FstubDirectives, HeaderDirectives, Plain;
    if libs == [] {
      assert InRange([]) by { EmptyInRange(); }
    } else {
      var init, l := libs[..|libs| - 1], libs[|libs| - 1];
      BlocksInRange(init);
      assert libs == init + [l] && CountsFit(libs) == (CountsFit(init) && |l.functions| < 0x1_0000);
      ItemsInRange(l);
      IntsInRange(l.functions);
      G.InRangeAppend(Names(init), NameDirectives(l));
      G.InRangeAppend(Fnids(init), FnidDirectives(l));
      G.InRangeAppend(Fstubs(init), FstubDirectives(l));
      G.InRangeAppend(Headers(init), HeaderDirectives(l));
      G.InRangeAppend(Trampolines(init), Stubs(l.functions));
    }
  }

  lemma {:induction false} EmptyInRange()
    ensures InRange([])
  {
  }

  lemma {:induction false} FileInRange(c: Config)
    requires LibNamesPlain(c.libs)
    ensures InRange(MoldierDirectives(c)) <==> CountsFit(c.libs)
  {
    hide InRange, Names, Fnids, Fstubs, Headers, Trampolines, ParamDirectives;
    var libs := c.libs;
    BlocksInRange(libs);
    ParamsInRange(c);
    var s1, s2 := [Section(NAME_SECTION, "aR")], [Section(FNID_SECTION, "aR"), Align(2)];
    var s4, s5 := [Section(HEADER_SECTION, "awR"), Align(2)], [Section(TEXT_SECTION, "ax"), Align(2)];
    SectionsInRange();
    G.InRangeAppend(Params(c), LibraryBlocks(libs));
    G.InRangeAppend(s1, Names(libs));
    G.InRangeAppend(s1 + Names(libs), s2);
    G.InRangeAppend(s1 + Names(libs) + s2, Fnids(libs));
    G.InRangeAppend(s1 + Names(libs) + s2 + Fnids(libs), Fstubs(libs));
    G.InRangeAppend(s1 + Names(libs) + s2 + Fnids(libs) + Fstubs(libs), s4);
    G.InRangeAppend(s1 + Names(libs) + s2 + Fnids(libs) + Fstubs(libs) + s4, Headers(libs));
    G.InRangeAppend(s1 + Names(libs) + s2 + Fnids(libs) + Fstubs(libs) + s4 + Headers(libs), s5);
    G.InRangeAppend(s1 + Names(libs) + s2 + Fnids(libs) + Fstubs(libs) + s4 + Headers(libs) + s5, Trampolines(libs));
  }

  lemma {:induction false} ParamsInRange(c: Config)
    ensures InRange(Params(c))
  {
    G.InRangeAppend(ParamDirectives(c), PRX_DIRECTIVES);
  }

  lemma {:induction false} SectionsInRange()
    ensures InRange([Section(NAME_SECTION, "aR")]) && InRange([Section(FNID_SECTION, "aR"), Align(2)])
    ensures InRange([Section(HEADER_SECTION, "awR"), Align(2)]) && InRange([Section(TEXT_SECTION, "ax"), Align(2)])
  {
  }

  // ---------- names an assembler takes ----------

  /** Functions are named by symbols, libraries by what can start one. */
  predicate Nameable(libs: seq<Library>) {
    forall i :: 0 <= i < |libs| ==> SymbolPrefix(libs[i].name) && NameableFunctions(libs[i].functions)
  }

  predicate NameableFunctions(fs: seq<Function>) {
    forall k :: 0 <= k < |fs| ==> IsSymbol(fs[k].name)
  }

  lemma {:induction false} NamesSymbols(fs: seq<Function>)
    ensures NameableFunctions(fs) <==> forall f :: f in NamesOf(fs) ==> IsSymbol(f)
  {
    hide NamesOf, IsSymbol;
    forall k | 0 <= k < |fs| ensures fs[k].name in NamesOf(fs) { assert NamesOf(fs)[k] == fs[k].name; }
  }

  lemma {:induction false} NameableMembers(libs: seq<Library>)
    ensures Nameable(libs) <==>
      (forall l :: l in LibNames(libs) ==> SymbolPrefix(l)) && (forall f :: f in FunctionNames(libs) ==> IsSymbol(f))
  {
    hide IsSymbol, SymbolPrefix, NamesOf, NameableFunctions;
    if libs != [] {
      var init, l := libs[..|libs| - 1], libs[|libs| - 1];
      assert libs == init + [l];
      NameableMembers(init);
      NamesSymbols(l.functions);
      assert Nameable(libs) <==> Nameable(init) && SymbolPrefix(l.name) && NameableFunctions(l.functions);
    }
  }

  /** A label is a symbol exactly when what it is made from allows it. */
  predicate Symbolic(o: Owner) {
    match o
    case OfLib(l, _) => SymbolPrefix(l)
    case SlotOf(f) => SymbolPrefix(f)
    case EntryOf(f) => IsSymbol(f)
    case _ => true
  }

  lemma {:induction false} OwnerSymbol(o: Owner)
    ensures IsSymbol(LabelOf(o)) <==> Symbolic(o)
  {
    match o
    case OfLib(l, k) => SuffixSymbol(l, Suffix(k));
    case SlotOf(f) => SuffixSymbol(f, "_stub");
    case _ =>
  }

  lemma {:induction false} SuffixSymbol(s: string, suffix: string)
    requires |suffix| > 1 && suffix[0] == '_' && forall i :: 0 <= i < |suffix| ==> SymbolChar(suffix[i])
    ensures IsSymbol(s + suffix) <==> SymbolPrefix(s)
  {
    var t := s + suffix;
    if IsSymbol(t) {
      forall i | 0 <= i < |s| ensures SymbolChar(s[i]) { assert t[i] == s[i]; }
    }
  }

  lemma {:induction false} LabelsSymbols(c: Config)
    ensures AllSymbols(Labels(MoldierDirectives(c))) <==> Nameable(c.libs)
  {
    hide Labels, MoldierDirectives, Owners, LibNames, FunctionNames, LabelOf, SymbolPrefix, Nameable;
    FileLabels(c);
    NameableMembers(c.libs);
    var libs := c.libs;
    if Nameable(libs) {
      forall l | l in LabelsOf(Owners(libs)) ensures IsSymbol(l) {
        var i :| 0 <= i < |Owners(libs)| && LabelsOf(Owners(libs))[i] == l;
        OwnerPresent(libs, Owners(libs)[i]);
        OwnerSymbol(Owners(libs)[i]);
      }
    } else if AllSymbols(Labels(MoldierDirectives(c))) {
      forall l | l in LibNames(libs) ensures SymbolPrefix(l) { LabelPresent(libs, OfLib(l, LibName)); OwnerSymbol(OfLib(l, LibName)); }
      forall f | f in FunctionNames(libs) ensures IsSymbol(f) { LabelPresent(libs, EntryOf(f)); EntryLabel(f); }
      assert false;
    }
  }

  lemma {:induction false} EntryLabel(f: string)
    ensures LabelOf(EntryOf(f)) == f
  {
  }

  lemma {:induction false} LabelPresent(libs: seq<Library>, o: Owner)
    requires Configured(libs, o)
    ensures LabelOf(o) in LabelsOf(Owners(libs))
  {
    hide Owners, LabelOf;
    OwnerPresent(libs, o);
    var i :| 0 <= i < |Owners(libs)| && Owners(libs)[i] == o;
    assert LabelsOf(Owners(libs))[i] == LabelOf(o);
  }

  lemma {:induction false} SymbolsPlain(libs: seq<Library>)
    requires Nameable(libs)
    ensures LibNamesPlain(libs)
  {
    forall i | 0 <= i < |libs| ensures Plain(libs[i].name) {
      forall k | 0 <= k < |libs[i].name| ensures 0 < libs[i].name[k] as int < 128 { assert SymbolChar(libs[i].name[k]); }
    }
  }

  /** A generated file assembles exactly when no two functions share a name, no
      function is named like a generated label, all names make symbols, and no
      library has more than 65535 functions. */
  lemma {:induction false} AssemblesExactly(c: Config)
    requires KeyOrdered(c.libs)
    ensures Assembles(MoldierDirectives(c)) <==> NamesOk(c.libs) && CountsFit(c.libs) && Nameable(c.libs)
  {
    hide MoldierDirectives, Labels, InRange, NamesOk, CountsFit, KeyOrdered, LibNamesPlain, Owners, LabelsOf,
      Nameable, AllSymbols;
    FileLabels(c);
    Clashes(c.libs);
    LabelsSymbols(c);
    if Nameable(c.libs) {
      SymbolsPlain(c.libs);
      FileInRange(c);
    }
  }
}
