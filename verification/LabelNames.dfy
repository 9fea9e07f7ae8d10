/** The labels of a generated file: who owns each, and when they clash. */
module LabelNames {
  import opened Wrappers
  import opened Assembly
  import opened Config
  import Passes
  import Binding
  import G = Generators

  datatype Kind = LibName | FnidTable | FnidEnd | FstubTable | FstubEnd | PrxHeader

  /** The owner of a label. */
  datatype Owner = ProcessParam | PrxParam | OfLib(lib: string, kind: Kind) | SlotOf(fn: string) | EntryOf(fn: string)

  function Suffix(k: Kind): string {
    match k
    case LibName => "_name"
    case FnidTable => "_fnid_table"
    case FnidEnd => "_fnid_table_end"
    case FstubTable => "_fstub_table"
    case FstubEnd => "_fstub_table_end"
    case PrxHeader => "_prx_header"
  }

  function LabelOf(o: Owner): string {
    match o
    case ProcessParam => "sys_process_param"
    case PrxParam => "sys_proc_prx_param"
    case OfLib(l, k) => l + Suffix(k)
    case SlotOf(f) => f + "_stub"
    case EntryOf(f) => f
  }

  // ---------- labels are recoverable ----------

  /** Counting from the end of a string. */
  function FromEnd(s: string, k: nat): char
    requires k < |s|
  {
    s[|s| - 1 - k]
  }

  lemma {:induction false} SuffixFromEnd(x: string, suffix: string, k: nat)
    requires k < |suffix|
    ensures FromEnd(x + suffix, k) == FromEnd(suffix, k)
  {
  }

  predicate Suffixed(o: Owner) { o.OfLib? || o.SlotOf? }

  function SuffixOf(o: Owner): string
    requires Suffixed(o)
  {
    if o.SlotOf? then "_stub" else Suffix(o.kind)
  }

  function BaseOf(o: Owner): string
    requires Suffixed(o)
  {
    if o.SlotOf? then o.fn else o.lib
  }

  /** The characters from the end that tell the suffixes apart. */
  predicate Marked(u: string, o: Owner)
    requires Suffixed(o)
  {
    && |u| > 4
    && match o {
         case SlotOf(_) => FromEnd(u, 0) == 'b'
         case OfLib(_, LibName) => FromEnd(u, 0) == 'e' && FromEnd(u, 1) == 'm'
         case OfLib(_, FnidTable) => FromEnd(u, 0) == 'e' && FromEnd(u, 1) == 'l' && |u| > 6 && FromEnd(u, 6) == 'd'
         case OfLib(_, FstubTable) => FromEnd(u, 0) == 'e' && FromEnd(u, 1) == 'l' && |u| > 6 && FromEnd(u, 6) == 'b'
         case OfLib(_, FnidEnd) => FromEnd(u, 0) == 'd' && |u| > 10 && FromEnd(u, 10) == 'd'
         case OfLib(_, FstubEnd) => FromEnd(u, 0) == 'd' && |u| > 10 && FromEnd(u, 10) == 'b'
         case OfLib(_, PrxHeader) => FromEnd(u, 0) == 'r'
       }
  }

  lemma {:induction false} LabelMarked(o: Owner)
    requires Suffixed(o)
    ensures Marked(LabelOf(o), o)
  {
    var x, s := BaseOf(o), SuffixOf(o);
    SuffixFromEnd(x, s, 0); SuffixFromEnd(x, s, 1);
    if |s| > 6 { SuffixFromEnd(x, s, 6); }
    if |s| > 10 { SuffixFromEnd(x, s, 10); }
  }

  /** None of the seven suffixes is a suffix of another. */
  lemma {:induction false} SuffixFree(a: Owner, b: Owner)
    requires Suffixed(a) && Suffixed(b) && LabelOf(a) == LabelOf(b)
    ensures SuffixOf(a) == SuffixOf(b)
  {
    hide LabelOf, FromEnd;
    LabelMarked(a);
    LabelMarked(b);
  }

  lemma {:induction false} MarkedLabelsInjective(a: Owner, b: Owner)
    requires !a.EntryOf? && !b.EntryOf? && LabelOf(a) == LabelOf(b)
    ensures a == b
  {
    if Suffixed(a) && Suffixed(b) {
      SuffixFree(a, b);
      var s := SuffixOf(a);
      assert LabelOf(a)[..|LabelOf(a)| - |s|] == BaseOf(a);
      assert LabelOf(b)[..|LabelOf(b)| - |s|] == BaseOf(b);
      KindOfSuffix(a, b);
    } else if Suffixed(a) {
      SuffixFromEnd(BaseOf(a), SuffixOf(a), 0);
    } else if Suffixed(b) {
      SuffixFromEnd(BaseOf(b), SuffixOf(b), 0);
    }
  }

  /** Exactly which labels are equal: those of one owner, and a function name that
      spells another owner's label. */
  lemma {:induction false} LabelsInjective(a: Owner, b: Owner)
    ensures LabelOf(a) == LabelOf(b) <==>
      a == b || a == EntryOf(LabelOf(b)) || b == EntryOf(LabelOf(a))
  {
    if LabelOf(a) == LabelOf(b) && !a.EntryOf? && !b.EntryOf? { MarkedLabelsInjective(a, b); }
  }

  lemma {:induction false} KindOfSuffix(a: Owner, b: Owner)
    requires Suffixed(a) && Suffixed(b) && SuffixOf(a) == SuffixOf(b) && BaseOf(a) == BaseOf(b)
    ensures a == b
  {
    var s, t := SuffixOf(a), SuffixOf(b);
    assert |s| == |t|;
    if a.OfLib? && b.OfLib? && |s| == 11 { assert s[1] == t[1]; }
    if |s| == 5 { assert s[1] == t[1]; }
  }

  /** From a `_prx_header` label the patcher recovers the library name, and so
      the labels the generator emitted for that library. */
  lemma {:induction false} HeaderLabelRecoversLibrary(lib: string, k: Kind)
    ensures Passes.StripSuffix(LabelOf(OfLib(lib, PrxHeader)), "_prx_header") == Some(lib)
    ensures forall p :: Passes.StripSuffix(LabelOf(OfLib(lib, k)), "_prx_header") == Some(p) ==> k == PrxHeader && p == lib
  {
    Binding.StripSuffixExact(LabelOf(OfLib(lib, PrxHeader)), "_prx_header", lib);
    forall p | Passes.StripSuffix(LabelOf(OfLib(lib, k)), "_prx_header") == Some(p) ensures k == PrxHeader && p == lib {
      Binding.StripSuffixExact(LabelOf(OfLib(lib, k)), "_prx_header", p);
      LabelsInjective(OfLib(lib, k), OfLib(p, PrxHeader));
    }
  }

  // ---------- the owners of a file's labels, in order ----------

  function NameOwners(libs: seq<Library>): seq<Owner> {
    if libs == [] then [] else NameOwners(libs[..|libs| - 1]) + [OfLib(libs[|libs| - 1].name, LibName)]
  }

  function FnidOwners(libs: seq<Library>): seq<Owner> {
    if libs == [] then []
    else
      var n := libs[|libs| - 1].name;
      FnidOwners(libs[..|libs| - 1]) + [OfLib(n, FnidTable), OfLib(n, FnidEnd)]
  }

  function SlotOwners(fs: seq<Function>): seq<Owner> {
    if fs == [] then [] else SlotOwners(fs[..|fs| - 1]) + [SlotOf(fs[|fs| - 1].name)]
  }

  function FstubOwners(libs: seq<Library>): seq<Owner> {
    if libs == [] then []
    else
      var l := libs[|libs| - 1];
      FstubOwners(libs[..|libs| - 1])
        + ([OfLib(l.name, FstubTable)] + SlotOwners(l.functions) + [OfLib(l.name, FstubEnd)])
  }

  function HeaderOwners(libs: seq<Library>): seq<Owner> {
    if libs == [] then [] else HeaderOwners(libs[..|libs| - 1]) + [OfLib(libs[|libs| - 1].name, PrxHeader)]
  }

  function StubOwners(fs: seq<Function>): seq<Owner> {
    if fs == [] then [] else StubOwners(fs[..|fs| - 1]) + [EntryOf(fs[|fs| - 1].name)]
  }

  function EntryOwners(libs: seq<Library>): seq<Owner> {
    if libs == [] then [] else EntryOwners(libs[..|libs| - 1]) + StubOwners(libs[|libs| - 1].functions)
  }

  function Owners(libs: seq<Library>): seq<Owner> {
    [ProcessParam, PrxParam] + NameOwners(libs) + FnidOwners(libs) + FstubOwners(libs) + HeaderOwners(libs)
      + EntryOwners(libs)
  }

  function LabelsOf(os: seq<Owner>): (r: seq<string>)
    ensures |r| == |os| && forall i :: 0 <= i < |os| ==> r[i] == LabelOf(os[i])
  {
    seq(|os|, i requires 0 <= i < |os| => LabelOf(os[i]))
  }

  lemma {:induction false} LabelsOfAppend(a: seq<Owner>, b: seq<Owner>)
    ensures LabelsOf(a + b) == LabelsOf(a) + LabelsOf(b)
  {
  }

  lemma {:induction false} NameLabels(libs: seq<Library>)
    ensures Labels(Names(libs)) == LabelsOf(NameOwners(libs))
  {
    hide Labels, NameDirectives;
    if libs == [] { G.LabelsNoneOf([]); } else {
      var init, l := libs[..|libs| - 1], libs[|libs| - 1];
      NameLabels(init);
      LabelsAppend(Names(init), NameDirectives(l));
      assert Labels(NameDirectives(l)) == [l.name + "_name"] by { NameItem(l); }
      LabelsOfAppend(NameOwners(init), [OfLib(l.name, LibName)]);
    }
  }

  lemma {:induction false} NameItem(l: Library)
    ensures Labels(NameDirectives(l)) == [l.name + "_name"]
  {
    hide Labels;
    G.LabelsOneOf(NameDirectives(l), 1);
  }

  lemma {:induction false} FnidIntsLabels(fs: seq<Function>)
    ensures Labels(FnidInts(fs)) == []
  {
    if fs != [] {
      FnidIntsLabels(fs[..|fs| - 1]);
      LabelsAppend(FnidInts(fs[..|fs| - 1]), [Int(fs[|fs| - 1].fnid)]);
      G.LabelsNoneOf([Int(fs[|fs| - 1].fnid)]);
    }
  }

  lemma {:induction false} FnidItem(l: Library)
    ensures Labels(FnidDirectives(l)) == [l.name + "_fnid_table", l.name + "_fnid_table_end"]
  {
    hide Labels, FnidInts;
    var a := [Globl(l.name + "_fnid_table"), Label(l.name + "_fnid_table")];
    var b := [Globl(l.name + "_fnid_table_end"), Label(l.name + "_fnid_table_end")];
    G.LabelsOneOf(a, 1);
    G.LabelsOneOf(b, 1);
    FnidIntsLabels(l.functions);
    LabelsAppend(a, FnidInts(l.functions));
    LabelsAppend(a + FnidInts(l.functions), b);
  }

  lemma {:induction false} FnidLabels(libs: seq<Library>)
    ensures Labels(Fnids(libs)) == LabelsOf(FnidOwners(libs))
  {
    hide Labels, FnidDirectives;
    if libs == [] { G.LabelsNoneOf([]); } else {
      var init, l := libs[..|libs| - 1], libs[|libs| - 1];
      FnidLabels(init);
      LabelsAppend(Fnids(init), FnidDirectives(l));
      FnidItem(l);
      LabelsOfAppend(FnidOwners(init), [OfLib(l.name, FnidTable), OfLib(l.name, FnidEnd)]);
      assert LabelsOf([OfLib(l.name, FnidTable), OfLib(l.name, FnidEnd)])
          == [l.name + "_fnid_table", l.name + "_fnid_table_end"];
    }
  }

  lemma {:induction false} SlotLabels(fs: seq<Function>)
    ensures Labels(SlotDirectives(fs)) == LabelsOf(SlotOwners(fs))
  {
    hide Labels;
    if fs == [] { G.LabelsNoneOf([]); } else {
      var init, f := fs[..|fs| - 1], fs[|fs| - 1];
      var item := [Globl(f.name + "_stub"), Label(f.name + "_stub"), Int(0)];
      SlotLabels(init);
      LabelsAppend(SlotDirectives(init), item);
      G.LabelsOneOf(item, 1);
      LabelsOfAppend(SlotOwners(init), [SlotOf(f.name)]);
    }
  }

  lemma {:induction false} FstubItem(l: Library)
    ensures Labels(FstubDirectives(l))
        == LabelsOf([OfLib(l.name, FstubTable)] + SlotOwners(l.functions) + [OfLib(l.name, FstubEnd)])
  {
    hide Labels, SlotDirectives, SlotOwners;
    var a := [Section(FstubSection(l), "aw"), Align(2), Globl(l.name + "_fstub_table"), Label(l.name + "_fstub_table")];
    var b := [Globl(l.name + "_fstub_table_end"), Label(l.name + "_fstub_table_end")];
    G.LabelsOneOf(a, 3);
    G.LabelsOneOf(b, 1);
    SlotLabels(l.functions);
    LabelsAppend(a, SlotDirectives(l.functions));
    LabelsAppend(a + SlotDirectives(l.functions), b);
    LabelsOfAppend([OfLib(l.name, FstubTable)], SlotOwners(l.functions));
    LabelsOfAppend([OfLib(l.name, FstubTable)] + SlotOwners(l.functions), [OfLib(l.name, FstubEnd)]);
  }

  lemma {:induction false} FstubLabels(libs: seq<Library>)
    ensures Labels(Fstubs(libs)) == LabelsOf(FstubOwners(libs))
  {
    hide Labels, FstubDirectives;
    if libs == [] { G.LabelsNoneOf([]); } else {
      var init, l := libs[..|libs| - 1], libs[|libs| - 1];
      FstubLabels(init);
      LabelsAppend(Fstubs(init), FstubDirectives(l));
      FstubItem(l);
      LabelsOfAppend(FstubOwners(init),
        [OfLib(l.name, FstubTable)] + SlotOwners(l.functions) + [OfLib(l.name, FstubEnd)]);
    }
  }

  lemma {:induction false} HeaderLabels(libs: seq<Library>)
    ensures Labels(Headers(libs)) == LabelsOf(HeaderOwners(libs))
  {
    hide Labels, HeaderDirectives;
    if libs == [] { G.LabelsNoneOf([]); } else {
      var init, l := libs[..|libs| - 1], libs[|libs| - 1];
      HeaderLabels(init);
      LabelsAppend(Headers(init), HeaderDirectives(l));
      HeaderItem(l);
      LabelsOfAppend(HeaderOwners(init), [OfLib(l.name, PrxHeader)]);
    }
  }

  lemma {:induction false} HeaderItem(l: Library)
    ensures Labels(HeaderDirectives(l)) == [l.name + "_prx_header"]
  {
    hide Labels;
    G.LabelsOneOf(HeaderDirectives(l), 1);
  }

  lemma {:induction false} StubLabels(fs: seq<Function>)
    ensures Labels(Stubs(fs)) == LabelsOf(StubOwners(fs))
  {
    hide Labels;
    if fs == [] { G.LabelsNoneOf([]); } else {
      var init, f := fs[..|fs| - 1], fs[|fs| - 1];
      StubLabels(init);
      LabelsAppend(Stubs(init), [DefineStub(f.name)]);
      G.LabelsOneOf([DefineStub(f.name)], 0);
      LabelsOfAppend(StubOwners(init), [EntryOf(f.name)]);
    }
  }

  lemma {:induction false} TrampolineLabels(libs: seq<Library>)
    ensures Labels(Trampolines(libs)) == LabelsOf(EntryOwners(libs))
  {
    hide Labels, Stubs, StubOwners;
    if libs == [] { G.LabelsNoneOf([]); } else {
      var init, l := libs[..|libs| - 1], libs[|libs| - 1];
      TrampolineLabels(init);
      LabelsAppend(Trampolines(init), Stubs(l.functions));
      StubLabels(l.functions);
      LabelsOfAppend(EntryOwners(init), StubOwners(l.functions));
    }
  }

  /** The blocks up to the stub slots. */
  lemma {:induction false} FrontLabels(libs: seq<Library>)
    ensures Labels([Section(NAME_SECTION, "aR")] + Names(libs) + [Section(FNID_SECTION, "aR"), Align(2)] + Fnids(libs)
        + Fstubs(libs))
         == LabelsOf(NameOwners(libs) + FnidOwners(libs) + FstubOwners(libs))
  {
    hide Labels, Names, Fnids, Fstubs, NameOwners, FnidOwners, FstubOwners, LabelsOf;
    var s1, s2 := [Section(NAME_SECTION, "aR")], [Section(FNID_SECTION, "aR"), Align(2)];
    NameLabels(libs); FnidLabels(libs); FstubLabels(libs);
    G.LabelsNoneOf(s1); G.LabelsNoneOf(s2);
    LabelsAppend(s1, Names(libs));
    LabelsAppend(s1 + Names(libs), s2);
    LabelsAppend(s1 + Names(libs) + s2, Fnids(libs));
    LabelsAppend(s1 + Names(libs) + s2 + Fnids(libs), Fstubs(libs));
    LabelsOfAppend(NameOwners(libs), FnidOwners(libs));
    LabelsOfAppend(NameOwners(libs) + FnidOwners(libs), FstubOwners(libs));
    assert [] + LabelsOf(NameOwners(libs)) + [] == LabelsOf(NameOwners(libs));
  }

  /** The headers and the trampolines. */
  lemma {:induction false} BackLabels(libs: seq<Library>)
    ensures Labels([Section(HEADER_SECTION, "awR"), Align(2)] + Headers(libs)
        + [Section(TEXT_SECTION, "ax"), Align(2)] + Trampolines(libs))
         == LabelsOf(HeaderOwners(libs) + EntryOwners(libs))
  {
    hide Labels, Headers, Trampolines, HeaderOwners, EntryOwners, LabelsOf;
    var s4, s5 := [Section(HEADER_SECTION, "awR"), Align(2)], [Section(TEXT_SECTION, "ax"), Align(2)];
    HeaderLabels(libs); TrampolineLabels(libs);
    G.LabelsNoneOf(s4); G.LabelsNoneOf(s5);
    LabelsAppend(s4, Headers(libs));
    LabelsAppend(s4 + Headers(libs), s5);
    LabelsAppend(s4 + Headers(libs) + s5, Trampolines(libs));
    LabelsOfAppend(HeaderOwners(libs), EntryOwners(libs));
    assert [] + LabelsOf(HeaderOwners(libs)) + [] == LabelsOf(HeaderOwners(libs));
  }

  lemma {:induction false} FileLabels(c: Config)
    ensures Labels(MoldierDirectives(c)) == LabelsOf(Owners(c.libs))
  {
    hide Labels, Params, Names, Fnids, Fstubs, Headers, Trampolines, NameOwners, FnidOwners, FstubOwners,
      HeaderOwners, EntryOwners, LabelsOf;
    var libs := c.libs;
    var front := [Section(NAME_SECTION, "aR")] + Names(libs) + [Section(FNID_SECTION, "aR"), Align(2)] + Fnids(libs)
        + Fstubs(libs);
    var back := [Section(HEADER_SECTION, "awR"), Align(2)] + Headers(libs) + [Section(TEXT_SECTION, "ax"), Align(2)]
        + Trampolines(libs);
    assert MoldierDirectives(c) == Params(c) + (front + back);
    G.ParamLabels(c); FrontLabels(libs); BackLabels(libs);
    LabelsAppend(Params(c), front + back);
    LabelsAppend(front, back);
    var p, a, b := [ProcessParam, PrxParam], NameOwners(libs) + FnidOwners(libs) + FstubOwners(libs),
        HeaderOwners(libs) + EntryOwners(libs);
    assert Owners(libs) == p + (a + b);
    LabelsOfAppend(p, a + b);
    LabelsOfAppend(a, b);
    FixedLabels();
  }

  lemma {:induction false} FixedLabels()
    ensures LabelsOf([ProcessParam, PrxParam]) == ["sys_process_param", "sys_proc_prx_param"]
  {
  }
}
