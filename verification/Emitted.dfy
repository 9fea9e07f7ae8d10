/** What the generators emit, in the words of the assembly file: sections and their
    flags, alignment, global symbols, and every word of a library's entries. */
module Emitted {
  import opened Bytes
  import opened Encoder
  import opened Assembly
  import opened Config
  import opened ImportLayout
  import opened Instructions
  import opened NameClashes
  import Elf
  import RoundTrip
  import GF = GeneratedFile

  // ---------- directives ----------

  predicate NextIs(ds: seq<Directive>, i: nat, d: Directive) {
    i + 1 < |ds| && ds[i + 1] == d
  }

  /** The sections of a file, each with its flags and the alignment that follows. */
  predicate EntersWell(ds: seq<Directive>, i: nat, libs: seq<Library>)
    requires i < |ds|
  {
    || (ds[i] == Section(".sys_proc_param", "aR") && NextIs(ds, i, Align(3)))
    || (ds[i] == Section(".sys_proc_prx_param", "aR") && NextIs(ds, i, Align(2)))
    || ds[i] == Section(".rodata.sceResident", "aR")
    || (ds[i] == Section(".rodata.sceFNID", "aR") && NextIs(ds, i, Align(2)))
    || ((exists k :: 0 <= k < |libs| && ds[i] == Section(".data.sceFStub." + libs[k].name, "aw")) && NextIs(ds, i, Align(2)))
    || (ds[i] == Section(".lib.stub", "awR") && NextIs(ds, i, Align(2)))
    || (ds[i] == Section(".sceStub.text", "ax") && NextIs(ds, i, Align(2)))
  }

  /** A label is declared global right before it is defined, and nothing else is. */
  predicate GlobalWell(ds: seq<Directive>, i: nat)
    requires i < |ds|
  {
    && (ds[i].Label? ==> i > 0 && ds[i - 1] == Globl(ds[i].symbol))
    && (ds[i].Globl? ==> NextIs(ds, i, Label(ds[i].symbol)))
  }

  predicate MarkedWell(ds: seq<Directive>, libs: seq<Library>) {
    forall i :: 0 <= i < |ds| ==> (ds[i].Section? ==> EntersWell(ds, i, libs)) && GlobalWell(ds, i)
  }

  lemma {:induction false} MarkedAppend(a: seq<Directive>, b: seq<Directive>, libs: seq<Library>)
    requires MarkedWell(a, libs) && MarkedWell(b, libs)
    ensures MarkedWell(a + b, libs)
  {
    var ds := a + b;
    forall i | 0 <= i < |ds| ensures (ds[i].Section? ==> EntersWell(ds, i, libs)) && GlobalWell(ds, i) {
      if i < |a| {
        assert ds[i] == a[i] && (i + 1 < |a| ==> ds[i + 1] == a[i + 1]);
        assert GlobalWell(a, i);
      } else {
        var j := i - |a|;
        assert ds[i] == b[j] && (j + 1 < |b| ==> ds[i + 1] == b[j + 1]) && (j > 0 ==> ds[i - 1] == b[j - 1]);
        assert GlobalWell(b, j);
      }
    }
  }

  /** Both generators mark every section and label of every file this way. */
  lemma {:induction false} FileMarked(c: Config)
    ensures MarkedWell(MoldierDirectives(c), c.libs) && MarkedWell(BuildDirectives(c), c.libs)
  {
    hide MarkedWell, ParamDirectives, PRX_DIRECTIVES, Names, Fnids, Fstubs, Headers, Trampolines;
    var libs := c.libs;
    FixedMarked(c);
    BlocksMarked(libs, |libs|);
    assert libs[..|libs|] == libs;
    var a := [Section(NAME_SECTION, "aR")] + Names(libs);
    var b := a + [Section(FNID_SECTION, "aR"), Align(2)];
    var d := b + Fnids(libs) + Fstubs(libs);
    var e := d + [Section(HEADER_SECTION, "awR"), Align(2)];
    var f := e + Headers(libs) + [Section(TEXT_SECTION, "ax"), Align(2)];
    assert LibraryBlocks(libs) == f + Trampolines(libs);
    MarkedAppend([Section(NAME_SECTION, "aR")], Names(libs), libs);
    MarkedAppend(a, [Section(FNID_SECTION, "aR"), Align(2)], libs);
    MarkedAppend(b, Fnids(libs), libs);
    MarkedAppend(b + Fnids(libs), Fstubs(libs), libs);
    MarkedAppend(d, [Section(HEADER_SECTION, "awR"), Align(2)], libs);
    MarkedAppend(e, Headers(libs), libs);
    MarkedAppend(e + Headers(libs), [Section(TEXT_SECTION, "ax"), Align(2)], libs);
    MarkedAppend(f, Trampolines(libs), libs);
    MarkedAppend(ParamDirectives(c), PRX_DIRECTIVES, libs);
    MarkedAppend(Params(c), LibraryBlocks(libs), libs);
  }

  lemma {:induction false} FixedMarked(c: Config)
    ensures MarkedWell(ParamDirectives(c), c.libs) && MarkedWell(PRX_DIRECTIVES, c.libs)
    ensures MarkedWell([Section(NAME_SECTION, "aR")], c.libs)
    ensures MarkedWell([Section(FNID_SECTION, "aR"), Align(2)], c.libs)
    ensures MarkedWell([Section(HEADER_SECTION, "awR"), Align(2)], c.libs)
    ensures MarkedWell([Section(TEXT_SECTION, "ax"), Align(2)], c.libs)
  {
  }

  lemma {:induction false} BlocksMarked(libs: seq<Library>, n: nat)
    requires n <= |libs|
    ensures MarkedWell(Names(libs[..n]), libs) && MarkedWell(Fnids(libs[..n]), libs)
    ensures MarkedWell(Fstubs(libs[..n]), libs) && MarkedWell(Headers(libs[..n]), libs)
    ensures MarkedWell(Trampolines(libs[..n]), libs)
  {
    hide MarkedWell, NameDirectives, FnidDirectives, FstubDirectives, HeaderDirectives, Stubs;
    if n == 0 {
      NoneMarked(libs);
    } else {
      BlocksMarked(libs, n - 1);
      assert libs[..n][..n - 1] == libs[..n - 1] && libs[..n][n - 1] == libs[n - 1];
      ItemsMarked(libs, n - 1);
      MarkedAppend(Names(libs[..n - 1]), NameDirectives(libs[n - 1]), libs);
      MarkedAppend(Fnids(libs[..n - 1]), FnidDirectives(libs[n - 1]), libs);
      MarkedAppend(Fstubs(libs[..n - 1]), FstubDirectives(libs[n - 1]), libs);
      MarkedAppend(Headers(libs[..n - 1]), HeaderDirectives(libs[n - 1]), libs);
      MarkedAppend(Trampolines(libs[..n - 1]), Stubs(libs[n - 1].functions), libs);
    }
  }

  lemma {:induction false} NoneMarked(libs: seq<Library>)
    ensures MarkedWell([], libs)
  {
  }

  lemma {:induction false} ItemsMarked(libs: seq<Library>, n: nat)
    requires n < |libs|
    ensures MarkedWell(NameDirectives(libs[n]), libs) && MarkedWell(FnidDirectives(libs[n]), libs)
    ensures MarkedWell(FstubDirectives(libs[n]), libs) && MarkedWell(HeaderDirectives(libs[n]), libs)
    ensures MarkedWell(Stubs(libs[n].functions), libs)
  {
    hide MarkedWell, FnidInts, SlotDirectives, HeaderDirectives, NameDirectives;
    var lib := libs[n];
    FunctionsMarked(lib.functions, libs);
    HeadMarked(lib.name + "_fnid_table", libs);
    HeadMarked(lib.name + "_fnid_table_end", libs);
    HeadMarked(lib.name + "_fstub_table", libs);
    HeadMarked(lib.name + "_fstub_table_end", libs);
    FixedItems(lib, libs);
    var ints, slots := FnidInts(lib.functions), SlotDirectives(lib.functions);
    var a, b := [Globl(lib.name + "_fnid_table"), Label(lib.name + "_fnid_table")],
        [Globl(lib.name + "_fnid_table_end"), Label(lib.name + "_fnid_table_end")];
    MarkedAppend(a, ints, libs);
    MarkedAppend(a + ints, b, libs);
    EnterMarked(libs, n);
    var enter, d, e := [Section(".data.sceFStub." + lib.name, "aw"), Align(2)],
        [Globl(lib.name + "_fstub_table"), Label(lib.name + "_fstub_table")],
        [Globl(lib.name + "_fstub_table_end"), Label(lib.name + "_fstub_table_end")];
    MarkedAppend(enter, d, libs);
    MarkedAppend(enter + d, slots, libs);
    MarkedAppend(enter + d + slots, e, libs);
    assert FstubDirectives(lib) == enter + d + slots + e;
  }

  lemma {:induction false} EnterMarked(libs: seq<Library>, n: nat)
    requires n < |libs|
    ensures MarkedWell([Section(".data.sceFStub." + libs[n].name, "aw"), Align(2)], libs)
  {
    var ds := [Section(".data.sceFStub." + libs[n].name, "aw"), Align(2)];
    assert EntersWell(ds, 0, libs);
  }

  lemma {:induction false} HeadMarked(l: string, libs: seq<Library>)
    ensures MarkedWell([Globl(l), Label(l)], libs)
  {
  }

  lemma {:induction false} FixedItems(lib: Library, libs: seq<Library>)
    ensures MarkedWell(NameDirectives(lib), libs) && MarkedWell(HeaderDirectives(lib), libs)
  {
  }

  lemma {:induction false} FunctionsMarked(fs: seq<Function>, libs: seq<Library>)
    ensures MarkedWell(FnidInts(fs), libs) && MarkedWell(SlotDirectives(fs), libs) && MarkedWell(Stubs(fs), libs)
  {
    hide MarkedWell;
    if fs == [] {
      NoneMarked(libs);
    } else {
      var init, f := fs[..|fs| - 1], fs[|fs| - 1];
      FunctionsMarked(init, libs);
      OneMarked(f, libs);
      MarkedAppend(FnidInts(init), [Int(f.fnid)], libs);
      MarkedAppend(SlotDirectives(init), [Globl(f.name + "_stub"), Label(f.name + "_stub"), Int(0)], libs);
      MarkedAppend(Stubs(init), [DefineStub(f.name)], libs);
    }
  }

  lemma {:induction false} OneMarked(f: Function, libs: seq<Library>)
    ensures MarkedWell([Int(f.fnid)], libs) && MarkedWell([DefineStub(f.name)], libs)
    ensures MarkedWell([Globl(f.name + "_stub"), Label(f.name + "_stub"), Int(0)], libs)
  {
  }

  /** Without libraries the build script stops behind the parameters, while moldier
      still enters the four sections of all libraries. */
  lemma {:induction false} WithoutLibraries(c: Config)
    requires c.libs == []
    ensures forall d :: d in BuildDirectives(c) && d.Section? ==>
      d.name == ".sys_proc_param" || d.name == ".sys_proc_prx_param"
    ensures Section(".rodata.sceResident", "aR") in MoldierDirectives(c)
    ensures Section(".rodata.sceFNID", "aR") in MoldierDirectives(c)
    ensures Section(".lib.stub", "awR") in MoldierDirectives(c) && Section(".sceStub.text", "ax") in MoldierDirectives(c)
  {
    var ps, n := Params(c), |Params(c)|;
    assert MoldierDirectives(c)[n] == Section(".rodata.sceResident", "aR");
    assert MoldierDirectives(c)[n + 1] == Section(".rodata.sceFNID", "aR");
    assert MoldierDirectives(c)[n + 3] == Section(".lib.stub", "awR");
    assert MoldierDirectives(c)[n + 5] == Section(".sceStub.text", "ax");
    forall d | d in ps && d.Section? ensures d.name == ".sys_proc_param" || d.name == ".sys_proc_prx_param" {
      assert d in ParamDirectives(c) || d in PRX_DIRECTIVES;
    }
  }

  // ---------- a library in the assembled file ----------

  /** The label marks a place in the section that holds `n` more bytes. */
  predicate PlaceOf(o: Object, l: string, sec: string, n: nat) {
    l in o.labels && o.labels[l].sec == sec && sec in o.contents && o.labels[l].off + n <= |o.contents[sec]|
  }

  /** The bytes of the name, and a NUL. */
  predicate NameIn(o: Object, lib: Library) {
    var l, n := lib.name + "_name", |lib.name|;
    && PlaceOf(o, l, ".rodata.sceResident", n + 1)
    && var b, at := o.contents[".rodata.sceResident"], o.labels[l].off;
    b[at + n] == 0 && forall k :: 0 <= k < n ==> b[at + k] == lib.name[k] as int
  }

  /** The FNIDs in order, between two labels. */
  predicate FnidsIn(o: Object, lib: Library) {
    var l, n := lib.name + "_fnid_table", |lib.functions|;
    && PlaceOf(o, l, ".rodata.sceFNID", 4 * n)
    && var b, at := o.contents[".rodata.sceFNID"], o.labels[l].off;
    && (forall k :: 0 <= k < n ==> U32(b[at + 4 * k..at + 4 * k + 4]) == lib.functions[k].fnid)
    && BoundTo(o, lib.name + "_fnid_table_end", Place(".rodata.sceFNID", at + 4 * n))
  }

  /** One empty slot a function, each at its label, between two labels. */
  predicate SlotsIn(o: Object, lib: Library) {
    var l, sec, n := lib.name + "_fstub_table", ".data.sceFStub." + lib.name, |lib.functions|;
    && PlaceOf(o, l, sec, 4 * n)
    && var b, at := o.contents[sec], o.labels[l].off;
    && (forall k :: 0 <= k < n ==> U32(b[at + 4 * k..at + 4 * k + 4]) == 0)
    && (forall k :: 0 <= k < n ==> BoundTo(o, lib.functions[k].name + "_stub", Place(sec, at + 4 * k)))
    && BoundTo(o, lib.name + "_fstub_table_end", Place(sec, at + 4 * n))
  }

  /** The import header: identification, module id, number of functions, zeroes. */
  predicate HeaderIn(o: Object, lib: Library, i: nat) {
    && BoundTo(o, lib.name + "_prx_header", Place(".lib.stub", 44 * i))
    && ".lib.stub" in o.contents && 44 * i + 44 <= |o.contents[".lib.stub"]|
    && var b := o.contents[".lib.stub"][44 * i..44 * i + 44];
    U32(b[0..4]) == 0x2c000001 && U16(b[4..6]) == lib.moduleId && U16(b[6..8]) as int == |lib.functions|
    && forall k :: 8 <= k < 44 ==> b[k] == 0
  }

  /** Every piece of every library is in the assembled file. */
  lemma {:induction false} LibraryInFile(c: Config, i: nat)
    requires Assembles(MoldierDirectives(c)) && i < |c.libs|
    ensures NameIn(GF.File(c), c.libs[i]) && FnidsIn(GF.File(c), c.libs[i])
    ensures SlotsIn(GF.File(c), c.libs[i]) && HeaderIn(GF.File(c), c.libs[i], i)
    ensures |GF.File(c).contents[".lib.stub"]| == 44 * |c.libs|
  {
    hide GF.File, MoldierDirectives, Assembles, NameLaid, FnidLaid, FstubLaid, NameIn, FnidsIn, SlotsIn, HeaderIn,
      HeaderTable;
    var o, lib := GF.File(c), c.libs[i];
    PlainNames(c, i);
    GF.NamesInFile(c, i);
    GF.FnidsInFile(c, i);
    GF.SlotsInFile(c, i);
    GF.HeadersInFile(c);
    NameBytes(o, lib);
    FnidWords(o, lib);
    SlotBytes(o, lib);
    HeaderWords(o, c.libs, i);
  }

  lemma {:induction false} PlainNames(c: Config, i: nat)
    requires Assembles(MoldierDirectives(c)) && i < |c.libs|
    ensures Plain(c.libs[i].name) && |c.libs[i].functions| < 0x1_0000
  {
    hide MoldierDirectives, Labels, Nameable, InRange;
    LabelsSymbols(c);
    SymbolsPlain(c.libs);
    FileInRange(c);
  }

  lemma {:induction false} NameBytes(o: Object, lib: Library)
    requires NameLaid(o, lib) && Plain(lib.name)
    ensures NameIn(o, lib)
  {
    hide TextBytes, Plain;
    var b, at, t, n := o.contents[NAME_SECTION], o.labels[lib.name + "_name"].off, TextBytes(lib.name), |lib.name|;
    TextIs(lib.name);
    forall k | 0 <= k <= n ensures b[at + k] == t[k] { assert b[at..at + |t|][k] == t[k]; }
  }

  lemma {:induction false} TextIs(s: string)
    requires Plain(s)
    ensures var t := TextBytes(s);
      |t| == |s| + 1 && t[|s|] == 0 && forall k :: 0 <= k < |s| ==> t[k] == s[k] as int
  {
    hide Ascii, Plain;
    var a := Ascii(s);
    forall k | 0 <= k < |s| ensures a[k] == s[k] as int { assert Elf.Text(a)[k] == s[k]; }
  }

  lemma {:induction false} FnidWords(o: Object, lib: Library)
    requires FnidLaid(o, lib)
    ensures FnidsIn(o, lib)
  {
    hide U32, BE, FnidBytes;
    var b, at, n := o.contents[FNID_SECTION], o.labels[lib.name + "_fnid_table"].off, |lib.functions|;
    forall k | 0 <= k < n ensures U32(b[at + 4 * k..at + 4 * k + 4]) == lib.functions[k].fnid {
      FnidWord(lib.functions, k);
      SliceOfSlice(b, at, at + 4 * n, 4 * k, 4 * k + 4);
      FieldRoundTrip32(lib.functions[k].fnid);
    }
  }

  lemma {:induction false} FnidWord(fs: seq<Function>, k: nat)
    requires k < |fs|
    ensures FnidBytes(fs)[4 * k..4 * k + 4] == BE(fs[k].fnid, 4)
  {
    hide BE;
    var n := |fs| - 1;
    if k < n {
      FnidWord(fs[..n], k);
      assert FnidBytes(fs)[4 * k..4 * k + 4] == FnidBytes(fs[..n])[4 * k..4 * k + 4];
    }
  }

  lemma {:induction false} SlotBytes(o: Object, lib: Library)
    requires FstubLaid(o, lib)
    ensures SlotsIn(o, lib)
  {
    hide U32;
    var base: nat :| SlotsLaid(o, lib, base);
    var b, n := o.contents[FstubSection(lib)], |lib.functions|;
    RoundTrip.ZeroWord();
    forall k | 0 <= k < n ensures U32(b[base + 4 * k..base + 4 * k + 4]) == 0 {
      SliceOfSlice(b, base, base + 4 * n, 4 * k, 4 * k + 4);
      assert Zeros(4 * n)[4 * k..4 * k + 4] == Zeros(4);
    }
  }

  lemma {:induction false} HeaderWords(o: Object, libs: seq<Library>, i: nat)
    requires HeadersLaid(o, libs) && i < |libs| && |libs[i].functions| < 0x1_0000
    ensures HeaderIn(o, libs[i], i)
  {
    hide BE, U32, U16, HeaderTable;
    var lib := libs[i];
    RoundTrip.HeaderSlice(libs, i);
    var b, x := o.contents[".lib.stub"][44 * i..44 * i + 44], HeaderBytes(lib);
    assert b == x;
    assert x[0..4] == BE(0x2c000001, 4) && x[4..6] == BE(lib.moduleId, 2) && x[6..8] == BE(|lib.functions|, 2);
    FieldRoundTrip32(0x2c000001); FieldRoundTrip16(lib.moduleId); FieldRoundTrip16(|lib.functions|);
  }

  // ---------- trampolines ----------

  /** The words of the macro; the two with a TOC half are still without it. */
  const STUB_WORDS: seq<nat> :=
    [0x7C0802A6, 0xF8010010, 0xF8410028, 0xF821FF81, 0x3D820000, 0x398C0000, 0x818C0000, 0x800C0000,
     0x804C0004, 0x7C0903A6, 0x4E800421, 0x38210080, 0xE8410028, 0xE8010010, 0x7C0803A6, 0x4E800020]

  lemma {:induction false} StubWord(f: string, k: nat)
    requires k < 16
    ensures InsnWord(StubInsns(f)[k]) == STUB_WORDS[k]
  {
  }

  /** After relocation, with the halves of the slot's distance from the TOC base. */
  lemma {:induction false} LinkedStubWord(off: int, k: nat)
    requires k < 16
    ensures InsnWord(LinkedStub(off)[k])
         == STUB_WORDS[k] + if k == 4 then Ha(off) else if k == 5 then Lo(off) else 0
  {
    hide Ha, Lo, Sext;
    SextField(Ha(off), 0);
    SextField(Lo(off), 0);
  }

  /** Each function's symbol marks these sixteen words in `.sceStub.text`. */
  lemma {:induction false} TrampolineWords(c: Config, i: nat, k: nat)
    requires Assembles(MoldierDirectives(c)) && i < |c.libs| && k < |c.libs[i].functions|
    ensures var o, f := GF.File(c), c.libs[i].functions[k].name;
      && PlaceOf(o, f, ".sceStub.text", 64)
      && GF.WordsAre(o.contents[".sceStub.text"], o.labels[f].off, STUB_WORDS)
  {
    hide GF.File, MoldierDirectives, Assembles, StubInsns, InsnWord, U32, BE;
    var o, f := GF.File(c), c.libs[i].functions[k].name;
    GF.TrampolinesInFile(c, i, k);
    var b, at := o.contents[TEXT_SECTION], o.labels[f].off;
    forall w | 0 <= w < 16 ensures U32(b[at + 4 * w..at + 4 * w + 4]) as int == STUB_WORDS[w] {
      assert WrittenAt(o, Place(TEXT_SECTION, at + 4 * w), StubInsns(f)[w]);
      StubWord(f, w);
      WordsFit(w);
      FieldRoundTrip32(STUB_WORDS[w]);
    }
  }

  lemma {:induction false} WordsFit(w: nat)
    requires w < 16
    ensures STUB_WORDS[w] < TWO32
  {
  }
}
