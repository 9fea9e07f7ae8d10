/** The two copies of `generate_sprx_assembly`, in moldier and in the build
    script: each appends to its output in nested loops over libraries and
    functions. Comments are erased. */
module Generators {
  import opened Assembly
  import opened Config
  import opened Lists

  /** Follows a loop over a prefix of `s` by one element. */
  lemma {:induction false} PrefixStep<T>(s: seq<T>, i: nat)
    requires i < |s|
    ensures s[..i + 1][..i] == s[..i] && s[..i + 1][i] == s[i] && |s[..i + 1]| == i + 1
  {
  }

  lemma {:induction false} PrefixAll<T>(s: seq<T>)
    ensures s[..|s|] == s
  {
  }

  // ---------- moldier ----------

  class Moldier {
    static method EmitNames(libs: seq<Library>, start: seq<Directive>) returns (out: seq<Directive>)
      ensures out == start + [Section(NAME_SECTION, "aR")] + Names(libs)
    {
      out := start + [Section(".rodata.sceResident", "aR")];
      for i := 0 to |libs|
        invariant out == start + [Section(NAME_SECTION, "aR")] + Names(libs[..i])
      {
        var name := libs[i].name;
        out := out + [Globl(name + "_name"), Label(name + "_name"), Asciz(name)];
        PrefixStep(libs, i);
      }
      PrefixAll(libs);
    }

    static method EmitFnids(libs: seq<Library>, start: seq<Directive>) returns (out: seq<Directive>)
      ensures out == start + [Section(FNID_SECTION, "aR"), Align(2)] + Fnids(libs)
    {
      out := start + [Section(".rodata.sceFNID", "aR"), Align(2)];
      for i := 0 to |libs|
        invariant out == start + [Section(FNID_SECTION, "aR"), Align(2)] + Fnids(libs[..i])
      {
        var lib := libs[i];
        ghost var before := out;
        out := out + [Globl(lib.name + "_fnid_table"), Label(lib.name + "_fnid_table")];
        ghost var head := out;
        for k := 0 to |lib.functions|
          invariant out == head + FnidInts(lib.functions[..k])
        {
          out := out + [Int(lib.functions[k].fnid)];
          PrefixStep(lib.functions, k);
        }
        PrefixAll(lib.functions);
        out := out + [Globl(lib.name + "_fnid_table_end"), Label(lib.name + "_fnid_table_end")];
        assert out == before + FnidDirectives(lib);
        PrefixStep(libs, i);
      }
      PrefixAll(libs);
    }

    static method EmitSlots(fs: seq<Function>, start: seq<Directive>) returns (out: seq<Directive>)
      ensures out == start + SlotDirectives(fs)
    {
      out := start;
      for k := 0 to |fs|
        invariant out == start + SlotDirectives(fs[..k])
      {
        var name := fs[k].name;
        out := out + [Globl(name + "_stub"), Label(name + "_stub"), Int(0)];
        PrefixStep(fs, k);
      }
      PrefixAll(fs);
    }

    static method EmitFstubs(libs: seq<Library>, start: seq<Directive>) returns (out: seq<Directive>)
      ensures out == start + Fstubs(libs)
    {
      hide SlotDirectives;
      out := start;
      for i := 0 to |libs|
        invariant out == start + Fstubs(libs[..i])
      {
        var lib := libs[i];
        ghost var before := out;
        out := out + [Section(".data.sceFStub." + lib.name, "aw"), Align(2),
                      Globl(lib.name + "_fstub_table"), Label(lib.name + "_fstub_table")];
        out := EmitSlots(lib.functions, out);
        out := out + [Globl(lib.name + "_fstub_table_end"), Label(lib.name + "_fstub_table_end")];
        assert out == before + FstubDirectives(lib);
        PrefixStep(libs, i);
      }
      PrefixAll(libs);
    }

    static method EmitHeaders(libs: seq<Library>, start: seq<Directive>) returns (out: seq<Directive>)
      ensures out == start + [Section(HEADER_SECTION, "awR"), Align(2)] + Headers(libs)
    {
      out := start + [Section(".lib.stub", "awR"), Align(2)];
      for i := 0 to |libs|
        invariant out == start + [Section(HEADER_SECTION, "awR"), Align(2)] + Headers(libs[..i])
      {
        var lib := libs[i];
        out := out + [Globl(lib.name + "_prx_header"), Label(lib.name + "_prx_header"),
                      Int(0x2c000001), Short(lib.moduleId), Short(|lib.functions|), Int(0), Int(0),
                      Int(0), Int(0), Int(0), Int(0), Int(0), Int(0), Int(0)];
        PrefixStep(libs, i);
      }
      PrefixAll(libs);
    }

    static method EmitTrampolines(libs: seq<Library>, start: seq<Directive>) returns (out: seq<Directive>)
      ensures out == start + [Section(TEXT_SECTION, "ax"), Align(2)] + Trampolines(libs)
    {
      out := start + [Section(".sceStub.text", "ax"), Align(2)];
      for i := 0 to |libs|
        invariant out == start + [Section(TEXT_SECTION, "ax"), Align(2)] + Trampolines(libs[..i])
      {
        var fs := libs[i].functions;
        ghost var head := out;
        for k := 0 to |fs|
          invariant out == head + Stubs(fs[..k])
        {
          out := out + [DefineStub(fs[k].name)];
          PrefixStep(fs, k);
        }
        PrefixAll(fs);
        PrefixStep(libs, i);
      }
      PrefixAll(libs);
    }

    /** moldier's generator. */
    static method Generate(c: Config) returns (out: seq<Directive>)
      ensures out == MoldierDirectives(c)
    {
      hide Names, Fnids, Fstubs, Headers, Trampolines, Params;
      out := Params(c);
      out := EmitNames(c.libs, out);
      out := EmitFnids(c.libs, out);
      out := EmitFstubs(c.libs, out);
      out := EmitHeaders(c.libs, out);
      out := EmitTrampolines(c.libs, out);
      assert out == Params(c) + LibraryBlocks(c.libs);
    }
  }

  // ---------- the build script ----------

  class BuildScript {
    /** Sections 1 to 3 of the output. */
    static method EmitTables(libs: seq<Library>, start: seq<Directive>) returns (out: seq<Directive>)
      ensures out == start + [Section(NAME_SECTION, "aR")] + Names(libs)
                     + [Section(FNID_SECTION, "aR"), Align(2)] + Fnids(libs) + Fstubs(libs)
    {
      hide FnidDirectives, FstubDirectives;
      out := start + [Section(".rodata.sceResident", "aR")];
      ghost var head := out;
      for i := 0 to |libs|
        invariant out == head + Names(libs[..i])
      {
        var name := libs[i].name;
        out := out + [Globl(name + "_name"), Label(name + "_name"), Asciz(name)];
        PrefixStep(libs, i);
      }
      out := out + [Section(".rodata.sceFNID", "aR"), Align(2)];
      head := out;
      for i := 0 to |libs|
        invariant out == head + Fnids(libs[..i])
      {
        var table := EmitFnidTable(libs[i]);
        out := out + table;
        PrefixStep(libs, i);
      }
      head := out;
      for i := 0 to |libs|
        invariant out == head + Fstubs(libs[..i])
      {
        var slots := EmitSlots(libs[i]);
        out := out + slots;
        PrefixStep(libs, i);
      }
      PrefixAll(libs);
    }

    static method EmitFnidTable(lib: Library) returns (out: seq<Directive>)
      ensures out == FnidDirectives(lib)
    {
      var ints: seq<Directive> := [];
      for k := 0 to |lib.functions|
        invariant ints == FnidInts(lib.functions[..k])
      {
        ints := ints + [Int(lib.functions[k].fnid)];
        PrefixStep(lib.functions, k);
      }
      PrefixAll(lib.functions);
      out := [Globl(lib.name + "_fnid_table"), Label(lib.name + "_fnid_table")] + ints
             + [Globl(lib.name + "_fnid_table_end"), Label(lib.name + "_fnid_table_end")];
    }

    static method EmitSlots(lib: Library) returns (out: seq<Directive>)
      ensures out == FstubDirectives(lib)
    {
      var slots: seq<Directive> := [];
      for k := 0 to |lib.functions|
        invariant slots == SlotDirectives(lib.functions[..k])
      {
        var name := lib.functions[k].name;
        slots := slots + [Globl(name + "_stub"), Label(name + "_stub"), Int(0)];
        PrefixStep(lib.functions, k);
      }
      PrefixAll(lib.functions);
      out := [Section(".data.sceFStub." + lib.name, "aw"), Align(2),
              Globl(lib.name + "_fstub_table"), Label(lib.name + "_fstub_table")] + slots
             + [Globl(lib.name + "_fstub_table_end"), Label(lib.name + "_fstub_table_end")];
    }

    static method EmitHeader(lib: Library) returns (out: seq<Directive>)
      ensures out == HeaderDirectives(lib)
    {
      out := [Globl(lib.name + "_prx_header"), Label(lib.name + "_prx_header"),
              Int(0x2c000001), Short(lib.moduleId), Short(|lib.functions|), Int(0), Int(0),
              Int(0), Int(0), Int(0), Int(0), Int(0), Int(0), Int(0)];
    }

    /** Sections 4 and 5 of the output. */
    static method EmitImports(libs: seq<Library>, start: seq<Directive>) returns (out: seq<Directive>)
      ensures out == start + [Section(HEADER_SECTION, "awR"), Align(2)] + Headers(libs)
                     + [Section(TEXT_SECTION, "ax"), Align(2)] + Trampolines(libs)
    {
      hide HeaderDirectives;
      out := start + [Section(".lib.stub", "awR"), Align(2)];
      ghost var head := out;
      for i := 0 to |libs|
        invariant out == head + Headers(libs[..i])
      {
        var header := EmitHeader(libs[i]);
        out := out + header;
        PrefixStep(libs, i);
      }
      out := out + [Section(".sceStub.text", "ax"), Align(2)];
      head := out;
      for i := 0 to |libs|
        invariant out == head + Trampolines(libs[..i])
      {
        var fs := libs[i].functions;
        ghost var before := out;
        for k := 0 to |fs|
          invariant out == before + Stubs(fs[..k])
        {
          out := out + [DefineStub(fs[k].name)];
          PrefixStep(fs, k);
        }
        PrefixAll(fs);
        PrefixStep(libs, i);
      }
      PrefixAll(libs);
    }

    /** The build script's generator. */
    static method Generate(c: Config) returns (out: seq<Directive>)
      ensures out == BuildDirectives(c)
    {
      hide Names, Fnids, Fstubs, Headers, Trampolines, Params;
      out := Params(c);
      if c.libs == [] { return; }
      out := EmitTables(c.libs, out);
      out := EmitImports(c.libs, out);
      assert out == Params(c) + LibraryBlocks(c.libs);
    }
  }

  // ---------- the two generators agree ----------

  /** Same code, labels and non-empty section contents. */
  ghost predicate SameUpToEmptySections(o: Object, p: Object) {
    && o.labels == p.labels && o.code == p.code
    && (forall s :: s in o.contents && o.contents[s] != [] ==> s in p.contents && p.contents[s] == o.contents[s])
    && (forall s :: s in p.contents && p.contents[s] != [] ==> s in o.contents && o.contents[s] == p.contents[s])
  }

  /** Entering a new section and aligning at its start emits nothing. */
  lemma {:induction false} EnterEmpty(o: Object, name: string, flags: string)
    requires o.cur in o.contents && name !in o.contents
    ensures Layout(o, [Section(name, flags), Align(2)]) == o.(cur := name, contents := o.contents[name := []])
    ensures Layout(o, [Section(name, flags)]) == o.(cur := name, contents := o.contents[name := []])
    ensures Labels([Section(name, flags), Align(2)]) == [] && Labels([Section(name, flags)]) == []
  {
    hide Layout, Labels;
    LayoutOne(o, Section(name, flags));
    LayoutTwo(o, Section(name, flags), Align(2));
    LabelsNoneOf([Section(name, flags), Align(2)]);
    LabelsNoneOf([Section(name, flags)]);
  }

  lemma {:induction false} LabelsNoneOf(ds: seq<Directive>)
    requires forall i :: 0 <= i < |ds| ==> Defines(ds[i]) == []
    ensures Labels(ds) == []
  {
    if ds != [] { LabelsNoneOf(ds[..|ds| - 1]); }
  }

  lemma {:induction false} LabelsOneOf(ds: seq<Directive>, k: nat)
    requires k < |ds| && forall i :: 0 <= i < |ds| && i != k ==> Defines(ds[i]) == []
    ensures Labels(ds) == Defines(ds[k])
  {
    if k == |ds| - 1 { LabelsNoneOf(ds[..k]); } else { LabelsOneOf(ds[..|ds| - 1], k); }
  }

  lemma {:induction false} NoLibraries(o: Object)
    requires o.cur in o.contents
    requires forall s :: s in LIBRARY_SECTIONS ==> s !in o.contents
    ensures Labels(LibraryBlocks([])) == [] && InRange(LibraryBlocks([]))
    ensures SameUpToEmptySections(Layout(o, LibraryBlocks([])), o)
  {
    hide Layout, Labels;
    var a, b := [Section(NAME_SECTION, "aR")], [Section(FNID_SECTION, "aR"), Align(2)];
    var d, e := [Section(HEADER_SECTION, "awR"), Align(2)], [Section(TEXT_SECTION, "ax"), Align(2)];
    assert LibraryBlocks([]) == ((a + b) + d) + e;
    SectionsDistinct();
    EnterEmpty(o, NAME_SECTION, "aR");
    var o1 := Layout(o, a);
    EnterEmpty(o1, FNID_SECTION, "aR");
    LayoutAppend(o, a, b); LabelsAppend(a, b);
    var o2 := Layout(o, a + b);
    EnterEmpty(o2, HEADER_SECTION, "awR");
    LayoutAppend(o, a + b, d); LabelsAppend(a + b, d);
    var o3 := Layout(o, a + b + d);
    EnterEmpty(o3, TEXT_SECTION, "ax");
    LayoutAppend(o, a + b + d, e); LabelsAppend(a + b + d, e);
    LabelsNoneOf(LibraryBlocks([]));
  }

  const LIBRARY_SECTIONS := [NAME_SECTION, FNID_SECTION, HEADER_SECTION, TEXT_SECTION]

  lemma {:induction false} SectionsDistinct()
    ensures NoDup(LIBRARY_SECTIONS) && |LIBRARY_SECTIONS| == 4
    ensures NAME_SECTION in LIBRARY_SECTIONS && FNID_SECTION in LIBRARY_SECTIONS
    ensures HEADER_SECTION in LIBRARY_SECTIONS && TEXT_SECTION in LIBRARY_SECTIONS
    ensures NAME_SECTION != FNID_SECTION && NAME_SECTION != HEADER_SECTION && NAME_SECTION != TEXT_SECTION
    ensures FNID_SECTION != HEADER_SECTION && FNID_SECTION != TEXT_SECTION && HEADER_SECTION != TEXT_SECTION
  {
    assert |NAME_SECTION| == 19 && |FNID_SECTION| == 15 && |HEADER_SECTION| == 9 && |TEXT_SECTION| == 13;
    var s := LIBRARY_SECTIONS;
    assert s[0] == NAME_SECTION && s[1] == FNID_SECTION && s[2] == HEADER_SECTION && s[3] == TEXT_SECTION;
  }

  /** For every configuration both outputs assemble or both fail, and the
      objects differ at most in empty sections. */
  lemma {:induction false} GeneratorsAgree(c: Config)
    ensures Assemble(MoldierDirectives(c)).Ok? <==> Assemble(BuildDirectives(c)).Ok?
    ensures Assemble(MoldierDirectives(c)).Ok? ==>
      SameUpToEmptySections(Assemble(MoldierDirectives(c)).value, Assemble(BuildDirectives(c)).value)
  {
    hide Layout, Labels, Params, LibraryBlocks, InRange;
    if c.libs == [] {
      var o := Layout(EMPTY_OBJECT, Params(c));
      LayoutAppend(EMPTY_OBJECT, Params(c), LibraryBlocks([]));
      LabelsAppend(Params(c), LibraryBlocks([]));
      InRangeAppend(Params(c), LibraryBlocks([]));
      ParamsAvoid(c);
      NoLibraries(o);
      assert Labels(Params(c)) + [] == Labels(Params(c));
    }
  }

  lemma {:induction false} InRangeAppend(a: seq<Directive>, b: seq<Directive>)
    ensures InRange(a + b) <==> InRange(a) && InRange(b)
  {
    if InRange(a + b) {
      assert forall i :: 0 <= i < |a| ==> (a + b)[i] == a[i];
      assert forall i :: 0 <= i < |b| ==> (a + b)[|a| + i] == b[i];
    }
  }

  lemma {:induction false} ParamsAvoid(c: Config)
    ensures forall s :: s in LIBRARY_SECTIONS ==> s !in Layout(EMPTY_OBJECT, Params(c)).contents
  {
    hide Layout, Avoids;
    ParamLabels(c);
    forall s | s in LIBRARY_SECTIONS ensures s !in Layout(EMPTY_OBJECT, Params(c)).contents {
      ParamsAvoidOne(c, s);
      LayoutAvoids(EMPTY_OBJECT, Params(c), s);
    }
  }

  lemma {:induction false} ParamsAvoidOne(c: Config, s: string)
    requires s in LIBRARY_SECTIONS
    ensures Avoids(Params(c), s) && s != ".text"
  {
    assert |s| > 5 && s[4] != '_';
  }

  lemma {:induction false} ParamLabels(c: Config)
    ensures Labels(Params(c)) == ["sys_process_param", "sys_proc_prx_param"] && Fresh(EMPTY_OBJECT, Params(c))
  {
    hide Labels;
    LabelsAppend(ParamDirectives(c), PRX_DIRECTIVES);
    LabelsOneOf(ParamDirectives(c), 3);
    LabelsOneOf(PRX_DIRECTIVES, 3);
  }
}
