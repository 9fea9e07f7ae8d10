/** The SPRX configuration and the directive blocks both generators emit. */
module Config {
  import opened Bytes
  import opened Assembly

  datatype Function = Function(name: string, fnid: u32)
  datatype Library = Library(name: string, moduleId: u16, functions: seq<Function>)

  /** `libs` lists the library map in key order. */
  datatype Config = Config(primaryPrio: u32, primaryStackSize: u32, libs: seq<Library>)

  /** The order of strings in a `BTreeMap`. */
  predicate Less(a: string, b: string) {
    if b == "" then false
    else if a == "" then true
    else a[0] < b[0] || (a[0] == b[0] && Less(a[1..], b[1..]))
  }

  predicate KeyOrdered(libs: seq<Library>) {
    forall i, j :: 0 <= i < j < |libs| ==> Less(libs[i].name, libs[j].name)
  }

  lemma {:induction false} LessIrreflexive(a: string)
    ensures !Less(a, a)
  {
    if a != "" { LessIrreflexive(a[1..]); }
  }

  // ---------- 0. process and PRX parameters ----------

  function ParamDirectives(c: Config): seq<Directive> {
    [Section(".sys_proc_param", "aR"), Align(3), Globl("sys_process_param"), Label("sys_process_param"),
     Int(0x20), Int(0x13bcc5f6), Int(0x9000), Int(0x192001), Int(c.primaryPrio), Int(c.primaryStackSize),
     Int(0x100000), Int(0)]
  }

  const PRX_DIRECTIVES: seq<Directive> :=
    [Section(".sys_proc_prx_param", "aR"), Align(2), Globl("sys_proc_prx_param"), Label("sys_proc_prx_param"),
     Int(0x28), Int(0x1b434cec), Int(2), Int(0), Int(0), Int(0), Int(0), Int(0), Short(0x0101), Short(0), Int(0)]

  // ---------- 1. library names ----------

  function NameDirectives(lib: Library): seq<Directive> {
    [Globl(lib.name + "_name"), Label(lib.name + "_name"), Asciz(lib.name)]
  }

  function Names(libs: seq<Library>): seq<Directive> {
    if libs == [] then [] else Names(libs[..|libs| - 1]) + NameDirectives(libs[|libs| - 1])
  }

  // ---------- 2. FNID tables ----------

  function FnidInts(fs: seq<Function>): seq<Directive> {
    if fs == [] then [] else FnidInts(fs[..|fs| - 1]) + [Int(fs[|fs| - 1].fnid)]
  }

  function FnidDirectives(lib: Library): seq<Directive> {
    [Globl(lib.name + "_fnid_table"), Label(lib.name + "_fnid_table")] + FnidInts(lib.functions)
    + [Globl(lib.name + "_fnid_table_end"), Label(lib.name + "_fnid_table_end")]
  }

  function Fnids(libs: seq<Library>): seq<Directive> {
    if libs == [] then [] else Fnids(libs[..|libs| - 1]) + FnidDirectives(libs[|libs| - 1])
  }

  // ---------- 3. stub slots ----------

  function FstubSection(lib: Library): string { ".data.sceFStub." + lib.name }

  function SlotDirectives(fs: seq<Function>): seq<Directive> {
    if fs == [] then []
    else
      var f := fs[|fs| - 1];
      SlotDirectives(fs[..|fs| - 1]) + [Globl(f.name + "_stub"), Label(f.name + "_stub"), Int(0)]
  }

  function FstubDirectives(lib: Library): seq<Directive> {
    [Section(FstubSection(lib), "aw"), Align(2), Globl(lib.name + "_fstub_table"), Label(lib.name + "_fstub_table")]
    + SlotDirectives(lib.functions)
    + [Globl(lib.name + "_fstub_table_end"), Label(lib.name + "_fstub_table_end")]
  }

  function Fstubs(libs: seq<Library>): seq<Directive> {
    if libs == [] then [] else Fstubs(libs[..|libs| - 1]) + FstubDirectives(libs[|libs| - 1])
  }

  // ---------- 4. import headers ----------

  function HeaderDirectives(lib: Library): seq<Directive> {
    [Globl(lib.name + "_prx_header"), Label(lib.name + "_prx_header"),
     Int(0x2c000001), Short(lib.moduleId), Short(|lib.functions|), Int(0), Int(0),
     Int(0), Int(0), Int(0), Int(0), Int(0), Int(0), Int(0)]
  }

  function Headers(libs: seq<Library>): seq<Directive> {
    if libs == [] then [] else Headers(libs[..|libs| - 1]) + HeaderDirectives(libs[|libs| - 1])
  }

  // ---------- 5. trampolines ----------

  function Stubs(fs: seq<Function>): seq<Directive> {
    if fs == [] then [] else Stubs(fs[..|fs| - 1]) + [DefineStub(fs[|fs| - 1].name)]
  }

  function Trampolines(libs: seq<Library>): seq<Directive> {
    if libs == [] then [] else Trampolines(libs[..|libs| - 1]) + Stubs(libs[|libs| - 1].functions)
  }

  // ---------- the whole file ----------

  const NAME_SECTION := ".rodata.sceResident"
  const FNID_SECTION := ".rodata.sceFNID"
  const HEADER_SECTION := ".lib.stub"
  const TEXT_SECTION := ".sceStub.text"
  const PRX_SECTION := ".sys_proc_prx_param"

  function Params(c: Config): seq<Directive> {
    ParamDirectives(c) + PRX_DIRECTIVES
  }

  function LibraryBlocks(libs: seq<Library>): seq<Directive> {
    [Section(NAME_SECTION, "aR")] + Names(libs)
    + [Section(FNID_SECTION, "aR"), Align(2)] + Fnids(libs)
    + Fstubs(libs)
    + [Section(HEADER_SECTION, "awR"), Align(2)] + Headers(libs)
    + [Section(TEXT_SECTION, "ax"), Align(2)] + Trampolines(libs)
  }

  /** What moldier emits. */
  function MoldierDirectives(c: Config): seq<Directive> {
    Params(c) + LibraryBlocks(c.libs)
  }

  /** What the build script emits: it stops early when there is no library. */
  function BuildDirectives(c: Config): seq<Directive> {
    if c.libs == [] then Params(c) else Params(c) + LibraryBlocks(c.libs)
  }
}
