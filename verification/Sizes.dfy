/** Bounds on an assembled file that follow from the configuration alone. */
module Sizes {
  import opened Bytes
  import opened Encoder
  import opened Assembly
  import opened Config
  import opened ImportLayout
  import opened NameClashes
  import opened Lists
  import GF = GeneratedFile

  predicate ShortName(name: string) {
    Plain(name) && |name| < 0x3FF
  }

  /** A directive with a short name that emits at most 72 bytes. */
  predicate Tame(d: Directive) {
    match d
    case Section(n, _) => ShortName(n)
    case Label(l) => ShortName(l)
    case DefineStub(l) => ShortName(l)
    case Asciz(t) => |t| <= 71
    case Align(n) => n <= 3
    case _ => true
  }

  ghost predicate AllTame(ds: seq<Directive>) {
    forall i :: 0 <= i < |ds| ==> Tame(ds[i])
  }

  // ---------- sums of section sizes ----------

  function Size(m: map<string, seq<byte>>, s: string): nat { if s in m then |m[s]| else 0 }

  function Total(m: map<string, seq<byte>>, names: seq<string>): nat {
    if names == [] then 0 else Total(m, names[..|names| - 1]) + Size(m, names[|names| - 1])
  }

  /** When one section grows by at most `d` bytes, so does the total. */
  lemma {:induction false} TotalGrows(a: map<string, seq<byte>>, b: map<string, seq<byte>>, names: seq<string>,
      s: string, d: nat)
    requires NoDup(names) && (forall t :: t != s ==> Size(b, t) == Size(a, t)) && Size(b, s) <= Size(a, s) + d
    ensures Total(b, names) <= Total(a, names) + if s in names then d else 0
  {
    hide Size;
    if names != [] {
      var n := |names| - 1;
      assert names == names[..n] + [names[n]];
      TotalGrows(a, b, names[..n], s, d);
    }
  }

  ghost predicate TotalAtMost(m: map<string, seq<byte>>, limit: nat) {
    forall names :: NoDup(names) ==> Total(m, names) <= limit
  }

  lemma {:induction false} TotalsGrow(a: map<string, seq<byte>>, b: map<string, seq<byte>>, s: string, d: nat,
      limit: nat)
    requires TotalAtMost(a, limit)
    requires (forall t :: t != s ==> Size(b, t) == Size(a, t)) && Size(b, s) <= Size(a, s) + d
    ensures TotalAtMost(b, limit + d)
  {
    hide Size, Total, NoDup;
    forall names | NoDup(names) ensures Total(b, names) <= limit + d {
      TotalGrows(a, b, names, s, d);
    }
  }

  // ---------- what tame directives can make ----------

  /** How many times `ds` enters a section. */
  function Entered(ds: seq<Directive>): nat {
    if ds == [] then 0 else Entered(ds[..|ds| - 1]) + if ds[|ds| - 1].Section? then 1 else 0
  }

  /** What `n` tame directives that enter a section `k` times can make. */
  ghost predicate Sized(o: Object, n: nat, k: nat) {
    && o.cur in o.contents && |o.contents| <= 1 + k && |o.labels| <= n
    && (forall s :: s in o.contents ==> ShortName(s)) && TotalAtMost(o.contents, 72 * n)
    && (forall l :: l in o.labels ==> ShortName(l))
  }

  lemma {:induction false} PadSize(o: Object, n: nat)
    requires o.cur in o.contents && n <= 3
    ensures var p := Pad(o, n);
      && p.cur == o.cur && p.labels == o.labels && p.contents.Keys == o.contents.Keys
      && |p.contents[o.cur]| <= |o.contents[o.cur]| + 7
      && (forall s :: s in o.contents && s != o.cur ==> p.contents[s] == o.contents[s])
  {
    assert Pow2(0) == 1 && Pow2(1) == 2 && Pow2(2) == 4 && Pow2(3) == 8;
  }

  lemma {:induction false} SameCount(a: map<string, seq<byte>>, b: map<string, seq<byte>>)
    requires a.Keys == b.Keys
    ensures |a| == |b|
  {
    assert |a.Keys| == |a| && |b.Keys| == |b|;
  }

  /** The current section grows by at most 72 bytes. */
  lemma {:induction false} GrowsSized(o: Object, r: Object, n: nat, k: nat)
    requires Sized(o, n, k) && r.cur == o.cur && r.contents.Keys == o.contents.Keys
    requires |r.contents[o.cur]| <= |o.contents[o.cur]| + 72
    requires forall s :: s in o.contents && s != o.cur ==> r.contents[s] == o.contents[s]
    requires |r.labels| <= n + 1 && forall l :: l in r.labels ==> ShortName(l)
    ensures Sized(r, n + 1, k)
  {
    hide ShortName, TotalAtMost;
    SameCount(o.contents, r.contents);
    TotalsGrow(o.contents, r.contents, o.cur, 72, 72 * n);
  }

  lemma {:induction false} StubSized(o: Object, name: string, n: nat, k: nat)
    requires Sized(o, n, k) && ShortName(name)
    ensures Sized(Step(o, DefineStub(name)), n + 1, k)
  {
    hide Pad, StubInsns, EmitCode, ShortName, InsnWord, TotalAtMost;
    PadSize(o, 2);
    EmitCodeFrame(Define(Pad(o, 2), name), StubInsns(name));
    GrowsSized(o, Step(o, DefineStub(name)), n, k);
  }

  lemma {:induction false} EnterSized(o: Object, name: string, flags: string, n: nat, k: nat)
    requires Sized(o, n, k) && ShortName(name)
    ensures Sized(Step(o, Section(name, flags)), n + 1, k + 1)
  {
    hide ShortName, TotalAtMost;
    TotalsGrow(o.contents, Step(o, Section(name, flags)).contents, name, 72, 72 * n);
  }

  lemma {:induction false} StepSized(o: Object, d: Directive, n: nat, k: nat)
    requires Sized(o, n, k) && Tame(d)
    ensures Sized(Step(o, d), n + 1, k + if d.Section? then 1 else 0)
  {
    hide ShortName, Pad, EmitCode, StubInsns, BE, TotalAtMost;
    match d {
      case Section(name, flags) => EnterSized(o, name, flags, n, k);
      case DefineStub(name) => StubSized(o, name, n, k);
      case Align(m) =>
        PadSize(o, m);
        GrowsSized(o, Step(o, d), n, k);
      case Asciz(t) =>
        TextBytesSize(t);
        GrowsSized(o, Step(o, d), n, k);
      case _ => GrowsSized(o, Step(o, d), n, k);
    }
  }

  lemma {:induction false} TextBytesSize(t: string)
    ensures |TextBytes(t)| <= |t| + 1
  {
  }

  lemma {:induction false} LayoutSized(ds: seq<Directive>)
    requires AllTame(ds)
    ensures Sized(Layout(EMPTY_OBJECT, ds), |ds|, Entered(ds))
  {
    hide Step, Tame, Sized;
    if ds == [] {
      assert Sized(EMPTY_OBJECT, 0, 0) by { EmptySized(); }
    } else {
      LayoutSized(ds[..|ds| - 1]);
      StepSized(Layout(EMPTY_OBJECT, ds[..|ds| - 1]), ds[|ds| - 1], |ds| - 1, Entered(ds[..|ds| - 1]));
    }
  }

  lemma {:induction false} EmptyTotal(names: seq<string>)
    ensures Total(map[".text" := []], names) == 0
  {
    if names != [] { EmptyTotal(names[..|names| - 1]); }
  }

  lemma {:induction false} EmptySized()
    ensures Sized(EMPTY_OBJECT, 0, 0)
  {
    forall names: seq<string> ensures Total(EMPTY_OBJECT.contents, names) == 0 { EmptyTotal(names); }
  }

  // ---------- how many sections a file has ----------

  lemma {:induction false} EnteredAppend(a: seq<Directive>, b: seq<Directive>)
    ensures Entered(a + b) == Entered(a) + Entered(b)
  {
    if b == [] {
      assert a + b == a;
    } else {
      assert (a + b)[..|a| + |b| - 1] == a + b[..|b| - 1];
      EnteredAppend(a, b[..|b| - 1]);
    }
  }

  lemma {:induction false} NeverEntered(ds: seq<Directive>)
    requires forall i :: 0 <= i < |ds| ==> !ds[i].Section?
    ensures Entered(ds) == 0
  {
    if ds != [] { NeverEntered(ds[..|ds| - 1]); }
  }

  /** Only the first directive of `ds` enters a section. */
  lemma {:induction false} EnteredOnce(ds: seq<Directive>)
    requires ds != [] && ds[0].Section? && forall i :: 0 < i < |ds| ==> !ds[i].Section?
    ensures Entered(ds) == 1
  {
    if |ds| > 1 {
      EnteredOnce(ds[..|ds| - 1]);
    } else {
      assert ds[..0] == [];
    }
  }

  lemma {:induction false} FstubEntered(lib: Library)
    ensures Entered(FstubDirectives(lib)) == 1
  {
    hide SlotDirectives, FstubDirectives, Entered, AllData;
    var ft, fe := lib.name + "_fstub_table", lib.name + "_fstub_table_end";
    var enter, rest := [Section(FstubSection(lib), "aw"), Align(2)],
        [Globl(ft), Label(ft)] + SlotDirectives(lib.functions) + [Globl(fe), Label(fe)];
    FstubParts(lib);
    FnidIntsData(lib.functions);
    HeadData(ft); HeadData(fe);
    AllDataAppend([Globl(ft), Label(ft)], SlotDirectives(lib.functions));
    AllDataAppend([Globl(ft), Label(ft)] + SlotDirectives(lib.functions), [Globl(fe), Label(fe)]);
    DataEntered(rest);
    EnteredOnce(enter);
    EnteredAppend(enter, rest);
  }

  lemma {:induction false} DataEntered(ds: seq<Directive>)
    requires AllData(ds)
    ensures Entered(ds) == 0
  {
    NeverEntered(ds);
  }

  lemma {:induction false} StubsEntered(ds: seq<Directive>)
    requires OnlyStubs(ds)
    ensures Entered(ds) == 0
  {
    NeverEntered(ds);
  }

  lemma {:induction false} FstubsEntered(libs: seq<Library>)
    ensures Entered(Fstubs(libs)) == |libs|
  {
    hide FstubDirectives, Entered;
    if libs == [] {
      NeverEntered([]);
    } else {
      var init, l := libs[..|libs| - 1], libs[|libs| - 1];
      FstubsEntered(init);
      FstubEntered(l);
      EnteredAppend(Fstubs(init), FstubDirectives(l));
    }
  }

  /** Six sections, and one more for each library. */
  lemma {:induction false} FileEntered(c: Config)
    ensures Entered(MoldierDirectives(c)) == 6 + |c.libs|
  {
    hide Entered, Params, Names, Fnids, Fstubs, Headers, Trampolines, AllData, OnlyStubs;
    var libs := c.libs;
    NamesData(libs);
    DataEntered(Names(libs)); DataEntered(Fnids(libs)); DataEntered(Headers(libs));
    FstubsEntered(libs);
    GF.TrampolinesOnlyStubs(libs);
    StubsEntered(Trampolines(libs));
    ParamsEntered(c);
    EnteredOnce(GF.ENTER_NAMES); EnteredOnce(GF.ENTER_FNIDS); EnteredOnce(GF.ENTER_HEADERS); EnteredOnce(GF.ENTER_TEXT);
    EnteredAppend(Params(c), GF.ENTER_NAMES);
    EnteredAppend(GF.ToNames(c), Names(libs)); EnteredAppend(GF.ToNames(c) + Names(libs), GF.ENTER_FNIDS);
    EnteredAppend(GF.ToFnids(c), Fnids(libs));
    EnteredAppend(GF.ToFstubs(c), Fstubs(libs)); EnteredAppend(GF.ToFstubs(c) + Fstubs(libs), GF.ENTER_HEADERS);
    EnteredAppend(GF.ToHeaders(c), Headers(libs)); EnteredAppend(GF.ToHeaders(c) + Headers(libs), GF.ENTER_TEXT);
    EnteredAppend(GF.ToText(c), Trampolines(libs));
    GF.FileParts(c);
  }

  lemma {:induction false} ParamsEntered(c: Config)
    ensures Entered(Params(c)) == 2
  {
    hide Entered;
    EnteredOnce(ParamDirectives(c));
    EnteredOnce(PRX_DIRECTIVES);
    EnteredAppend(ParamDirectives(c), PRX_DIRECTIVES);
  }

  // ---------- the generated directives ----------

  /** Library names of at most 71 characters, function names of at most 1000. */
  predicate ShortNames(libs: seq<Library>) {
    forall i :: 0 <= i < |libs| ==>
      |libs[i].name| <= 71 && forall k :: 0 <= k < |libs[i].functions| ==> |libs[i].functions[k].name| <= 1000
  }

  lemma {:induction false} SymbolPlain(s: string)
    requires SymbolPrefix(s)
    ensures Plain(s)
  {
    forall i | 0 <= i < |s| ensures 0 < s[i] as int < 128 { assert SymbolChar(s[i]); }
  }

  lemma {:induction false} NamesTame(libs: seq<Library>)
    requires Nameable(libs) && ShortNames(libs)
    ensures TameNames(libs)
  {
    hide SymbolPrefix, Plain;
    forall i | 0 <= i < |libs|
      ensures Plain(libs[i].name) && |libs[i].name| <= 71 && TameFunctions(libs[i].functions)
    {
      SymbolPlain(libs[i].name);
      forall k | 0 <= k < |libs[i].functions| ensures Plain(libs[i].functions[k].name) && |libs[i].functions[k].name| <= 1000 {
        assert NameableFunctions(libs[i].functions);
        SymbolPlain(libs[i].functions[k].name);
      }
    }
  }

  /** ... and plain. */
  predicate TameNames(libs: seq<Library>) {
    forall i :: 0 <= i < |libs| ==>
      && Plain(libs[i].name) && |libs[i].name| <= 71 && TameFunctions(libs[i].functions)
  }

  predicate TameFunctions(fs: seq<Function>) {
    forall k :: 0 <= k < |fs| ==> Plain(fs[k].name) && |fs[k].name| <= 1000
  }

  lemma {:induction false} TameAppend(a: seq<Directive>, b: seq<Directive>)
    requires AllTame(a) && AllTame(b)
    ensures AllTame(a + b)
  {
  }

  lemma {:induction false} PlainAppend(a: string, b: string)
    requires Plain(a) && Plain(b)
    ensures Plain(a + b)
  {
  }

  lemma {:induction false} FunctionsTame(fs: seq<Function>)
    requires TameFunctions(fs)
    ensures AllTame(FnidInts(fs)) && AllTame(SlotDirectives(fs)) && AllTame(Stubs(fs))
  {
    if fs != [] {
      var f := fs[|fs| - 1];
      FunctionsTame(fs[..|fs| - 1]);
      PlainAppend(f.name, "_stub");
    }
  }

  lemma {:induction false} SuffixesTame(name: string)
    requires Plain(name) && |name| <= 71
    ensures ShortName(name + "_name") && ShortName(name + "_fnid_table") && ShortName(name + "_fnid_table_end")
    ensures ShortName(name + "_fstub_table")
    ensures ShortName(name + "_fstub_table_end") && ShortName(name + "_prx_header")
    ensures ShortName(".data.sceFStub." + name)
  {
    PlainAppend(name, "_name"); PlainAppend(name, "_fnid_table"); PlainAppend(name, "_fnid_table_end");
    PlainAppend(name, "_fstub_table"); PlainAppend(name, "_fstub_table_end"); PlainAppend(name, "_prx_header");
    PlainAppend(".data.sceFStub.", name);
  }

  lemma {:induction false} LibraryTame(l: Library)
    requires Plain(l.name) && |l.name| <= 71 && TameFunctions(l.functions)
    ensures AllTame(NameDirectives(l)) && AllTame(FnidDirectives(l)) && AllTame(FstubDirectives(l))
    ensures AllTame(HeaderDirectives(l))
  {
    hide ShortName, FnidInts, SlotDirectives;
    SuffixesTame(l.name);
    FunctionsTame(l.functions);
  }

  lemma {:induction false} BlocksTame(libs: seq<Library>)
    requires TameNames(libs)
    ensures AllTame(Names(libs)) && AllTame(Fnids(libs)) && AllTame(Fstubs(libs)) && AllTame(Headers(libs))
    ensures AllTame(Trampolines(libs))
  {
    hide AllTame, NameDirectives, FnidDirectives, FstubDirectives, HeaderDirectives;
    if libs == [] {
      assert AllTame([]) by { NoneTame(); }
    } else {
      var init, l := libs[..|libs| - 1], libs[|libs| - 1];
      BlocksTame(init);
      LibraryTame(l);
      FunctionsTame(l.functions);
      TameAppend(Names(init), NameDirectives(l)); TameAppend(Fnids(init), FnidDirectives(l));
      TameAppend(Fstubs(init), FstubDirectives(l)); TameAppend(Headers(init), HeaderDirectives(l));
      TameAppend(Trampolines(init), Stubs(l.functions));
    }
  }

  lemma {:induction false} NoneTame()
    ensures AllTame([])
  {
  }

  lemma {:induction false} FileTame(c: Config)
    requires TameNames(c.libs)
    ensures AllTame(MoldierDirectives(c))
  {
    hide AllTame, Params, Names, Fnids, Fstubs, Headers, Trampolines;
    var libs := c.libs;
    BlocksTame(libs);
    FixedTame(c);
    TameAppend(Params(c), GF.ENTER_NAMES);
    TameAppend(GF.ToNames(c), Names(libs)); TameAppend(GF.ToNames(c) + Names(libs), GF.ENTER_FNIDS);
    TameAppend(GF.ToFnids(c), Fnids(libs));
    TameAppend(GF.ToFstubs(c), Fstubs(libs)); TameAppend(GF.ToFstubs(c) + Fstubs(libs), GF.ENTER_HEADERS);
    TameAppend(GF.ToHeaders(c), Headers(libs)); TameAppend(GF.ToHeaders(c) + Headers(libs), GF.ENTER_TEXT);
    TameAppend(GF.ToText(c), Trampolines(libs));
    GF.FileParts(c);
  }

  lemma {:induction false} FixedTame(c: Config)
    ensures AllTame(Params(c)) && AllTame(GF.ENTER_NAMES) && AllTame(GF.ENTER_FNIDS) && AllTame(GF.ENTER_HEADERS)
    ensures AllTame(GF.ENTER_TEXT)
  {
    hide ShortName;
    ParamNames();
    SectionNames();
    TameAppend(ParamDirectives(c), PRX_DIRECTIVES);
  }

  lemma {:induction false} ParamNames()
    ensures ShortName(".sys_proc_param") && ShortName("sys_process_param") && ShortName(PRX_SECTION)
    ensures ShortName("sys_proc_prx_param")
  {
  }

  lemma {:induction false} SectionNames()
    ensures ShortName(NAME_SECTION) && ShortName(FNID_SECTION) && ShortName(HEADER_SECTION) && ShortName(TEXT_SECTION)
  {
  }

  /** The sections, labels and bytes of a generated file. */
  lemma {:induction false} FileSized(c: Config)
    requires Nameable(c.libs) && ShortNames(c.libs)
    ensures Sized(GF.File(c), |MoldierDirectives(c)|, 6 + |c.libs|)
  {
    hide MoldierDirectives, Layout, AllTame, Sized, Nameable, ShortNames, TameNames;
    NamesTame(c.libs);
    FileTame(c);
    FileEntered(c);
    LayoutSized(MoldierDirectives(c));
  }
}
