/** The end-to-end theorem about imports. */
module ImportTheorem {
  import opened Bytes
  import opened Wrappers
  import opened Elf
  import opened Encoder
  import opened Passes
  import opened ProgramHeaders
  import opened Locality
  import opened Independence
  import opened LoadImage
  import opened Assembly
  import opened Config
  import opened ImportLayout
  import opened NameClashes
  import opened Linking
  import opened Loader
  import opened RoundTrip
  import GF = GeneratedFile
  import Rerun

  /** What the loader is to find for a library: its slots are at the addresses
      of its functions' `_stub` symbols. */
  ghost function Expected(symbols: map<string, u64>, lib: Library): Import
    requires forall k :: 0 <= k < |lib.functions| ==> lib.functions[k].name + "_stub" in symbols
  {
    Import(lib.name, lib.moduleId,
           seq(|lib.functions|, k requires 0 <= k < |lib.functions| => lib.functions[k].fnid),
           seq(|lib.functions|, k requires 0 <= k < |lib.functions| => symbols[lib.functions[k].name + "_stub"]))
  }

  predicate StubSymbols(libs: seq<Library>, symbols: map<string, u64>) {
    forall i, k :: 0 <= i < |libs| && 0 <= k < |libs[i].functions| ==> libs[i].functions[k].name + "_stub" in symbols
  }

  /** What the loader is to find in the whole file. */
  ghost function Expectation(libs: seq<Library>, symbols: map<string, u64>): seq<Import>
    requires StubSymbols(libs, symbols)
  {
    seq(|libs|, i requires 0 <= i < |libs| => Expected(symbols, libs[i]))
  }

  // ---------- the loaded memory ----------

  function AfterTable(g: Image, h: Image): seq<Phdr>
    requires g.phoff + PHENTSIZE * h.phnum <= |h.data|
  {
    Table(h.data, g.phoff, h.phnum)
  }

  /** `d` is the patched file, function descriptors aside. */
  ghost predicate LeftBy(g: Image, order: seq<string>, d: seq<byte>)
    requires Patchable(g) && Known(g, order)
  {
    |d| == |g.data| == |PatchAll(g, order).data|
    && forall x :: 0 <= x < |d| && !OpdByte(g, x) ==> d[x] == PatchAll(g, order).data[x]
  }

  lemma {:induction false} PatchedMemory(c: Config, g: Image, seats: Placement, order: seq<string>, d: seq<byte>)
    requires Ready(c, g, seats, order) && Patchable(g) && Known(g, order) && LeftBy(g, order, d)
    ensures OldTableFits(g)
    ensures var h := PatchAll(g, order);
      && |h.data| == |g.data| && h.phoff == g.phoff && g.phoff + PHENTSIZE * h.phnum <= |h.data|
      && Loadable(AfterTable(g, h), |d|) && MemoryOf(g, Memory(AfterTable(g, h), d), h.data)
  {
    hide Ready, PatchAll, Patchable, NoWrap, TableFits, Disjoint, NewSlots, Separated, Linked, GF.File, Table, Memory,
      FileOffset, Assembles, MoldierDirectives, Loadable, Field;
    ReadyRuns(c, g, seats, order);
    ReadyDisjoint(c, g, seats, order);
    PatchedPhdrs(g, order);
    PatchingPreservesLoadImage(g, order);
    var h := PatchAll(g, order);
    var m := Memory(AfterTable(g, h), d);
    forall v | FileOffset(BeforeTable(g), v).Some? && !OpdByte(g, FileOffset(BeforeTable(g), v).value)
      ensures FileOffset(BeforeTable(g), v).value < |h.data| && v in m
      ensures m[v] == h.data[FileOffset(BeforeTable(g), v).value]
    {
      assert FileOffset(AfterTable(g, h), v) == FileOffset(BeforeTable(g), v);
      MemoryByte(AfterTable(g, h), d, v);
    }
  }

  // ---------- the pieces of one import ----------

  lemma {:induction false} CStrReads(m: map<nat, byte>, a: nat, bs: seq<byte>)
    requires a + |bs| < TWO32 && ByteAt(m, a + |bs|) == 0
    requires forall j :: 0 <= j < |bs| ==> bs[j] != 0 && ByteAt(m, a + j) == bs[j]
    ensures CStr(m, a) == bs
    decreases |bs|
  {
    hide ByteAt;
    if bs != [] {
      var rest := bs[1..];
      forall j | 0 <= j < |rest| ensures rest[j] != 0 && ByteAt(m, a + 1 + j) == rest[j] {
        assert bs[j + 1] == rest[j];
        assert ByteAt(m, a + (j + 1)) == bs[j + 1];
      }
      CStrReads(m, a + 1, rest);
      assert ByteAt(m, a + 0) == bs[0];
    }
  }

  /** A label of the file, as a symbol. */
  lemma {:induction false} SymbolOf(c: Config, g: Image, seats: Placement, order: seq<string>, l: string)
    requires Ready(c, g, seats, order) && l in GF.File(c).labels && l != ""
    requires GF.File(c).labels[l].sec in GF.File(c).contents
    requires GF.File(c).labels[l].off <= |GF.File(c).contents[GF.File(c).labels[l].sec]|
    ensures var p := GF.File(c).labels[l];
      && p.sec in seats.at && l in g.symbols && g.symbols[l] == seats.at[p.sec].addr + p.off < TWO32
      && Pointer(g.symbols, l) == seats.at[p.sec].addr + p.off
  {
    hide GF.File, Separated, NoWrap, OpdFits, Loadable, KeyOrdered, LibNamesPlain, Assembles, MoldierDirectives,
      NewSlots, BeforeTable, Enumerates;
    assert Seated(g, GF.File(c), seats, GF.File(c).labels[l].sec);
  }

  /** Reading a section the passes leave alone gives what was assembled. */
  lemma {:induction false} ReadsSection(c: Config, g: Image, seats: Placement, order: seq<string>, s: string,
      m: map<nat, byte>, k: nat)
    requires Ready(c, g, seats, order) && s in GF.File(c).contents && k < |GF.File(c).contents[s]|
    requires s != HEADER_SECTION && s != PRX_SECTION && s != TEXT_SECTION
    requires OldTableFits(g) && Patchable(g) && Known(g, order) && MemoryOf(g, m, PatchAll(g, order).data)
    ensures s in seats.at && ByteAt(m, seats.at[s].addr + k) == GF.File(c).contents[s][k]
  {
    hide Ready, PatchAll, Patchable, GF.File, MemoryOf, Seated, ByteAt, ClearOfOpd, LinkedByte, Offsets;
    UntouchedByte(c, g, seats, order, s, k);
    SeatedSection(c, g, seats, order, s, k);
    ReadyClear(c, g, seats, order, s);
    ByteThroughSeat(g, GF.File(c), seats, s, m, PatchAll(g, order).data, k);
  }

  /** The memory at `a` starts with `bs`. */
  predicate ReadsAs(m: map<nat, byte>, a: nat, bs: seq<byte>) {
    forall j {:trigger bs[j]} :: 0 <= j < |bs| ==> ByteAt(m, a + j) == bs[j]
  }

  lemma {:induction false} SectionReads(c: Config, g: Image, seats: Placement, order: seq<string>, s: string,
      m: map<nat, byte>, off: nat, bs: seq<byte>)
    requires Ready(c, g, seats, order) && HasBytes(GF.File(c), s, off, bs) && |bs| > 0
    requires s != HEADER_SECTION && s != PRX_SECTION && s != TEXT_SECTION
    requires OldTableFits(g) && Patchable(g) && Known(g, order) && MemoryOf(g, m, PatchAll(g, order).data)
    ensures s in seats.at && ReadsAs(m, seats.at[s].addr + off, bs) && seats.at[s].addr + off + |bs| < TWO32
  {
    hide Ready, PatchAll, Patchable, GF.File, MemoryOf, ByteAt;
    var t := GF.File(c).contents[s];
    SectionEnd(c, g, seats, order, s, off + |bs|);
    forall j | 0 <= j < |bs| ensures ByteAt(m, seats.at[s].addr + off + j) == bs[j] {
      ReadsSection(c, g, seats, order, s, m, off + j);
      assert t[off..off + |bs|][j] == t[off + j];
    }
  }

  lemma {:induction false} StringReads(m: map<nat, byte>, a: nat, name: string)
    requires Plain(name) && ReadsAs(m, a, TextBytes(name)) && a + |name| + 1 < TWO32
    ensures Text(CStr(m, a)) == name
  {
    hide CStr, Text, ByteAt;
    var bs, t := Ascii(name), TextBytes(name);
    assert t == bs + [0];
    assert t[|bs|] == 0;
    forall j | 0 <= j < |bs| ensures bs[j] != 0 && ByteAt(m, a + j) == bs[j] { assert bs[j] in bs && t[j] == bs[j]; }
    CStrReads(m, a, bs);
  }

  lemma {:induction false} WordReads(m: map<nat, byte>, a: nat, bs: seq<byte>, k: nat, v: u32)
    requires ReadsAs(m, a, bs) && k + 4 <= |bs| && bs[k..k + 4] == BE(v, 4)
    ensures Word(m, a + k) == v
  {
    hide BE, U32, ByteAt, Read;
    var w := bs[k..k + 4];
    forall i | 0 <= i < 4 ensures Read(m, a + k, 4)[i] == w[i] {
      assert w[i] == bs[k + i];
      assert ByteAt(m, a + (k + i)) == bs[k + i];
    }
    assert Read(m, a + k, 4) == w;
    FieldRoundTrip32(v);
  }

  lemma {:induction false} SectionNames()
    ensures NAME_SECTION != HEADER_SECTION && NAME_SECTION != PRX_SECTION && NAME_SECTION != TEXT_SECTION
    ensures FNID_SECTION != HEADER_SECTION && FNID_SECTION != PRX_SECTION && FNID_SECTION != TEXT_SECTION
  {
    assert |TEXT_SECTION| == 13;
    assert |NAME_SECTION| == 19 && |HEADER_SECTION| == 9 && NAME_SECTION[1] != PRX_SECTION[1];
    assert |FNID_SECTION| == 15 && |PRX_SECTION| == 19;
  }

  lemma {:induction false} NameRead(c: Config, g: Image, seats: Placement, order: seq<string>, m: map<nat, byte>,
      i: nat)
    requires Ready(c, g, seats, order) && i < |c.libs|
    requires OldTableFits(g) && Patchable(g) && Known(g, order) && MemoryOf(g, m, PatchAll(g, order).data)
    ensures Text(CStr(m, Pointer(g.symbols, c.libs[i].name + "_name"))) == c.libs[i].name
  {
    hide Ready, PatchAll, Patchable, GF.File, MemoryOf, ByteAt, CStr, Pointer, Text, FnidLaid, FstubLaid, ReadsAs,
      TextBytes, HasBytes;
    var lib, o := c.libs[i], GF.File(c);
    var l := lib.name + "_name";
    ReadyNames(c, g, seats, order, i);
    LabelInside(o, NAME_SECTION, o.labels[l].off, TextBytes(lib.name));
    TextSize(lib.name);
    SectionNames();
    SymbolOf(c, g, seats, order, l);
    SectionReads(c, g, seats, order, NAME_SECTION, m, o.labels[l].off, TextBytes(lib.name));
    StringReads(m, seats.at[NAME_SECTION].addr + o.labels[l].off, lib.name);
  }

  lemma {:induction false} LabelInside(o: Object, s: string, off: nat, bs: seq<byte>)
    requires HasBytes(o, s, off, bs)
    ensures s in o.contents && off + |bs| <= |o.contents[s]|
  {
  }

  lemma {:induction false} TextSize(t: string)
    requires Plain(t)
    ensures |TextBytes(t)| == |t| + 1
  {
  }

  lemma {:induction false} ReadyNames(c: Config, g: Image, seats: Placement, order: seq<string>, i: nat)
    requires Ready(c, g, seats, order) && i < |c.libs|
    ensures Plain(c.libs[i].name) && NameLaid(GF.File(c), c.libs[i]) && FnidLaid(GF.File(c), c.libs[i])
    ensures FstubLaid(GF.File(c), c.libs[i])
  {
    hide GF.File, NameLaid, FnidLaid, FstubLaid, Linked, Separated, TableFits, NoWrap, OpdFits, Loadable,
      MoldierDirectives, Plain;
    ReadyConfig(c, g, seats, order);
    GF.NamesInFile(c, i);
    GF.FnidsInFile(c, i);
    GF.SlotsInFile(c, i);
  }

  lemma {:induction false} SectionEnd(c: Config, g: Image, seats: Placement, order: seq<string>, s: string, k: nat)
    requires Ready(c, g, seats, order) && s in GF.File(c).contents && k <= |GF.File(c).contents[s]|
    ensures s in seats.at && seats.at[s].addr + k < TWO32
  {
    hide GF.File, Separated, NoWrap, OpdFits, Loadable, KeyOrdered, LibNamesPlain, Assembles, MoldierDirectives,
      NewSlots, BeforeTable, Enumerates;
    assert Seated(g, GF.File(c), seats, s);
  }

  lemma {:induction false} FnidAt(fs: seq<Function>, k: nat)
    requires k < |fs|
    ensures FnidBytes(fs)[4 * k..4 * k + 4] == BE(fs[k].fnid, 4)
  {
    hide BE;
    if k < |fs| - 1 {
      FnidAt(fs[..|fs| - 1], k);
      assert FnidBytes(fs)[4 * k..4 * k + 4] == FnidBytes(fs[..|fs| - 1])[4 * k..4 * k + 4];
    }
  }

  lemma {:induction false} FnidRead(c: Config, g: Image, seats: Placement, order: seq<string>, m: map<nat, byte>,
      i: nat, k: nat)
    requires Ready(c, g, seats, order) && i < |c.libs| && k < |c.libs[i].functions|
    requires OldTableFits(g) && Patchable(g) && Known(g, order) && MemoryOf(g, m, PatchAll(g, order).data)
    ensures Word(m, Pointer(g.symbols, c.libs[i].name + "_fnid_table") + 4 * k) == c.libs[i].functions[k].fnid
  {
    hide Ready, PatchAll, Patchable, GF.File, MemoryOf, Word, Pointer, FnidBytes, BE, NameLaid, FstubLaid, ReadsAs,
      HasBytes;
    var lib, o, fs := c.libs[i], GF.File(c), c.libs[i].functions;
    var l := lib.name + "_fnid_table";
    ReadyNames(c, g, seats, order, i);
    LabelInside(o, FNID_SECTION, o.labels[l].off, FnidBytes(fs));
    SectionNames();
    SymbolOf(c, g, seats, order, l);
    SectionReads(c, g, seats, order, FNID_SECTION, m, o.labels[l].off, FnidBytes(fs));
    FnidAt(fs, k);
    WordReads(m, seats.at[FNID_SECTION].addr + o.labels[l].off, FnidBytes(fs), 4 * k, fs[k].fnid);
  }

  /** A bound label inside its section, as a symbol. */
  lemma {:induction false} BoundSymbol(c: Config, g: Image, seats: Placement, order: seq<string>, l: string,
      p: Place)
    requires Ready(c, g, seats, order) && BoundTo(GF.File(c), l, p) && l != ""
    requires p.sec in GF.File(c).contents && p.off <= |GF.File(c).contents[p.sec]|
    ensures p.sec in seats.at && l in g.symbols && g.symbols[l] == seats.at[p.sec].addr + p.off
    ensures Pointer(g.symbols, l) == seats.at[p.sec].addr + p.off
  {
    hide Ready, GF.File, Pointer;
    SymbolOf(c, g, seats, order, l);
  }

  /** The slots of library `i` are consecutive words from its table symbol. */
  lemma {:induction false} SlotAddresses(c: Config, g: Image, seats: Placement, order: seq<string>, i: nat)
    requires Ready(c, g, seats, order) && i < |c.libs|
    ensures var lib := c.libs[i];
      && lib.name + "_fstub_table" in g.symbols && lib.name + "_fstub_table_end" in g.symbols
      && g.symbols[lib.name + "_fstub_table_end"] == g.symbols[lib.name + "_fstub_table"] + 4 * |lib.functions|
      && (forall k :: 0 <= k < |lib.functions| ==>
            && lib.functions[k].name + "_stub" in g.symbols
            && g.symbols[lib.functions[k].name + "_stub"] == Pointer(g.symbols, lib.name + "_fstub_table") + 4 * k)
  {
    hide Ready, GF.File, Pointer, NameLaid, FnidLaid, HasBytes, FstubSection;
    var lib, o := c.libs[i], GF.File(c);
    ReadyNames(c, g, seats, order, i);
    var base: nat :| SlotsLaid(o, lib, base);
    LabelInside(o, FstubSection(lib), base, Zeros(4 * |lib.functions|));
    BoundSymbol(c, g, seats, order, lib.name + "_fstub_table", Place(FstubSection(lib), base));
    BoundSymbol(c, g, seats, order, lib.name + "_fstub_table_end",
      Place(FstubSection(lib), base + 4 * |lib.functions|));
    forall k | 0 <= k < |lib.functions|
      ensures lib.functions[k].name + "_stub" in g.symbols
      ensures g.symbols[lib.functions[k].name + "_stub"] == Pointer(g.symbols, lib.name + "_fstub_table") + 4 * k
    {
      BoundSymbol(c, g, seats, order, lib.functions[k].name + "_stub", Place(FstubSection(lib), base + 4 * k));
    }
  }

  /** Entry `i` of the table decodes to library `i`. */
  lemma {:induction false} ImportRead(c: Config, g: Image, seats: Placement, order: seq<string>, m: map<nat, byte>,
      i: nat)
    requires Ready(c, g, seats, order) && i < |c.libs|
    requires OldTableFits(g) && Patchable(g) && Known(g, order) && MemoryOf(g, m, PatchAll(g, order).data)
    ensures HEADER_SECTION in g.sections
    ensures forall k :: 0 <= k < |c.libs[i].functions| ==> c.libs[i].functions[k].name + "_stub" in g.symbols
    ensures DecodeImport(m, StubSection(g).addr + 44 * i) == Expected(g.symbols, c.libs[i])
  {
    hide Ready, PatchAll, Patchable, GF.File, MemoryOf, Half, Word, CStr, Pointer, Text;
    var lib := c.libs[i];
    SlotAddresses(c, g, seats, order, i);
    PatchedHeader(c, g, seats, order, i);
    HeaderReads(c, g, seats, order, m, i);
    NameRead(c, g, seats, order, m, i);
    assert ImportCount(g.symbols, lib.name, |lib.functions|) == |lib.functions|;
    forall k | 0 <= k < |lib.functions|
      ensures Word(m, Pointer(g.symbols, lib.name + "_fnid_table") + 4 * k) == lib.functions[k].fnid
    {
      FnidRead(c, g, seats, order, m, i, k);
    }
  }

  /** The fields of entry `i` as the loader reads them. */
  lemma {:induction false} HeaderReads(c: Config, g: Image, seats: Placement, order: seq<string>, m: map<nat, byte>,
      i: nat)
    requires Ready(c, g, seats, order) && i < |c.libs|
    requires OldTableFits(g) && Patchable(g) && Known(g, order) && MemoryOf(g, m, PatchAll(g, order).data)
    ensures HEADER_SECTION in g.sections && |c.libs[i].functions| < 0x1_0000
    ensures var p, lib := StubSection(g).addr + 44 * i, c.libs[i];
      && Half(m, p + 4) == lib.moduleId && Half(m, p + 6) == ImportCount(g.symbols, lib.name, |lib.functions|)
      && Word(m, p + 16) == Pointer(g.symbols, lib.name + "_name")
        && Word(m, p + 20) == Pointer(g.symbols, lib.name + "_fnid_table")
      && Word(m, p + 24) == Pointer(g.symbols, lib.name + "_fstub_table")
  {
    hide Ready, PatchAll, Patchable, GF.File, MemoryOf, Read, Pointer, ImportCount, U16, U32, Seated, ClearOfOpd,
      LinkedByte, Offsets;
    PatchedHeader(c, g, seats, order, i);
    StubTable(c, g, seats, order);
    var o, d, s := GF.File(c), PatchAll(g, order).data, StubSection(g);
    PatchedHeaderByte(c, g, seats, order, i, s.offset + 44 * i);
    assert |o.contents[HEADER_SECTION]| == 44 * |c.libs|;
    SeatedSection(c, g, seats, order, HEADER_SECTION, 44 * i);
    ReadyClear(c, g, seats, order, HEADER_SECTION);
    ThroughSeat(g, o, seats, HEADER_SECTION, m, d, 44 * i + 4, 2);
    ThroughSeat(g, o, seats, HEADER_SECTION, m, d, 44 * i + 6, 2);
    ThroughSeat(g, o, seats, HEADER_SECTION, m, d, 44 * i + 16, 4);
    ThroughSeat(g, o, seats, HEADER_SECTION, m, d, 44 * i + 20, 4);
    ThroughSeat(g, o, seats, HEADER_SECTION, m, d, 44 * i + 24, 4);
  }

  // ---------- the walk ----------

  lemma {:induction false} WalkReads(m: map<nat, byte>, base: nat, i: nat, n: nat)
    requires i <= n
    ensures var r := Walk(m, base + 44 * i, base + 44 * n);
      |r| == n - i && forall k :: 0 <= k < n - i ==> r[k] == DecodeImport(m, base + 44 * (i + k))
    decreases n - i
  {
    hide DecodeImport;
    if i < n {
      WalkReads(m, base, i + 1, n);
      var r, rest := Walk(m, base + 44 * i, base + 44 * n), Walk(m, base + 44 * (i + 1), base + 44 * n);
      assert base + 44 * i + HEADER_SIZE == base + 44 * (i + 1);
      forall k | 0 <= k < n - i ensures r[k] == DecodeImport(m, base + 44 * (i + k)) {
        if k > 0 { assert r[k] == rest[k - 1] == DecodeImport(m, base + 44 * (i + 1 + (k - 1))); }
      }
    }
  }

  /** The parameter block tells the loader the bounds of the table. */
  lemma {:induction false} BoundsRead(c: Config, g: Image, seats: Placement, order: seq<string>, m: map<nat, byte>)
    requires Ready(c, g, seats, order)
    requires OldTableFits(g) && Patchable(g) && Known(g, order) && MemoryOf(g, m, PatchAll(g, order).data)
    ensures PRX_SECTION in g.sections
    ensures Word(m, g.sections[PRX_SECTION].addr + 24) == Start(g.sections, LIB_STUB)
    ensures Word(m, g.sections[PRX_SECTION].addr + 28) == End(g.sections, LIB_STUB)
  {
    hide Ready, PatchAll, Patchable, GF.File, MemoryOf, Read, ClearOfOpd, LinkedByte, Offsets, U32, Seated, Disjoint,
      NoWrap, TableFits, NewSlots, Linked, Separated, Loadable, Start, End;
    PrxTable(c, g, seats, order);
    ReadyRuns(c, g, seats, order);
    ReadyDisjoint(c, g, seats, order);
    PatchedPhdrs(g, order);
    var o, d, off := GF.File(c), PatchAll(g, order).data, g.sections[PRX_SECTION].offset;
    GF.PrxParamsInFile(c);
    SeatedSection(c, g, seats, order, PRX_SECTION, 24);
    forall x: nat | off + 16 <= x < off + 32 ensures d[x] == PrxBounds(g.sections)[x - off - 16] {
      PrxRegion(g, order, x);
      PipelineAt(g, order, FixPrxParams, x);
    }
    var b := PrxBounds(g.sections);
    assert d[off + 24..off + 28] == b[8..12] && d[off + 28..off + 32] == b[12..16];
    BoundsBytes(g.sections);
    ReadyClear(c, g, seats, order, PRX_SECTION);
    ThroughSeat(g, o, seats, PRX_SECTION, m, d, 24, 4);
    ThroughSeat(g, o, seats, PRX_SECTION, m, d, 28, 4);
    FieldRoundTrip32(Start(g.sections, LIB_STUB));
    FieldRoundTrip32(End(g.sections, LIB_STUB));
  }

  lemma {:induction false} BoundsBytes(sections: map<string, Section>)
    ensures var b := PrxBounds(sections);
      b[8..12] == BE(Start(sections, LIB_STUB), 4) && b[12..16] == BE(End(sections, LIB_STUB), 4)
  {
    hide BE, Start, End;
  }

  lemma {:induction false} PrxRegion(g: Image, order: seq<string>, x: nat)
    requires CanRunAll(g) && Known(g, order) && PRX_SECTION in g.sections && g.sections[PRX_SECTION].size >= 0x28
    requires g.sections[PRX_SECTION].offset + 16 <= x < g.sections[PRX_SECTION].offset + 32 <= |g.data|
    ensures Region(FixPrxParams, g, order, x)
    ensures Run(FixPrxParams, g, order).data[x] == PrxBounds(g.sections)[x - g.sections[PRX_SECTION].offset - 16]
  {
    hide PrxBounds, TableFits;
  }

  /** The file's own header still locates the rewritten table. */
  lemma {:induction false} TableFound(c: Config, g: Image, seats: Placement, order: seq<string>, d: seq<byte>)
    requires Ready(c, g, seats, order) && U64(g.data[32..40]) == g.phoff
    requires Patchable(g) && Known(g, order) && LeftBy(g, order, d)
    ensures var h := PatchAll(g, order);
      g.phoff + PHENTSIZE * h.phnum <= |h.data| && FileTable(d) == Some(AfterTable(g, h))
  {
    hide Ready, PatchAll, Patchable, GF.File, Disjoint, NoWrap, TableFits, NewSlots, Linked, Separated, Loadable, U64,
      U16, Table, Phdrs, BeforeTable, Assembles, MoldierDirectives, Region, OpdByte, Slots;
    ReadyRuns(c, g, seats, order);
    ReadyDisjoint(c, g, seats, order);
    PatchedPhdrs(g, order);
    RewriteRefinesTable(g);
    PatchedMemory(c, g, seats, order, d);
    var h := PatchAll(g, order);
    forall x: nat | 32 <= x < 40 ensures d[x] == g.data[x] {
      forall p: Pass ensures !Region(p, g, order, x) { LowByte(c, g, seats, order, p, x); }
      Rerun.UnownedByte(g, order, x);
      HeadersOffOpd(c, g, seats, order, x);
    }
    assert d[32..40] == g.data[32..40];
    assert PhdrBytes(g, 56) && PhdrBytes(g, 57);
    HeadersOffOpd(c, g, seats, order, 56);
    HeadersOffOpd(c, g, seats, order, 57);
    assert d[56..58] == Phdrs(g).data[56..58];
    forall x | g.phoff <= x < g.phoff + PHENTSIZE * h.phnum ensures d[x] == h.data[x] {
      PatchedPhnum(g, order);
      HeadersOffOpd(c, g, seats, order, x);
    }
    TableLocal(d, h.data, g.phoff, h.phnum);
  }

  lemma {:induction false} PatchedPhnum(g: Image, order: seq<string>)
    requires CanRunAll(g) && Known(g, order) && Disjoint(g, order) && NoWrap(g) && |NewSlots(g)| < 0x1_0000
    ensures Patchable(g) && PatchAll(g, order).phnum <= Slots(g)
  {
    hide PatchAll, Patchable, Disjoint, NoWrap, NewSlots, TableFits;
    PatchedPhdrs(g, order);
  }

  /** The file header and the program header table hold no descriptor. */
  lemma {:induction false} HeadersOffOpd(c: Config, g: Image, seats: Placement, order: seq<string>, x: nat)
    requires Ready(c, g, seats, order)
    requires x < 64 || g.phoff <= x < g.phoff + PHENTSIZE * Slots(g)
    ensures !OpdByte(g, x)
  {
    hide Ready, OpdDone, OpdBase, Slots;
    RangesApart(c, g, seats, order);
  }

  lemma {:induction false} LowByte(c: Config, g: Image, seats: Placement, order: seq<string>, p: Pass, x: nat)
    requires Ready(c, g, seats, order) && 32 <= x < 40
    ensures CanRunAll(g) && Known(g, order) && !Region(p, g, order, x)
  {
    hide Ready, Region, OpdDone, OpdBase, Slots, CanRunAll;
    RegionRange(c, g, seats, order, p, x);
    RangesApart(c, g, seats, order);
  }

  lemma {:induction false} LastIsPrx(phs: seq<Phdr>, sections: map<string, Section>)
    requires PRX_SECTION in sections
    ensures FindKind(phs + InjectedPhdrs(sections), PT_SCE_PROC_PRX_PARAM)
         == Some(ParamPhdr(PT_SCE_PROC_PRX_PARAM, sections[PRX_SECTION], 4))
  {
  }

  /** Searching the table the file header locates for the PRX parameter kind
      finds the injected header, which describes the PRX parameter section. */
  lemma {:induction false} PrxParamsFound(c: Config, g: Image, seats: Placement, order: seq<string>, d: seq<byte>)
    requires Ready(c, g, seats, order) && U64(g.data[32..40]) == g.phoff
    requires Patchable(g) && Known(g, order) && LeftBy(g, order, d)
    ensures PRX_SECTION in g.sections && FileTable(d).Some?
    ensures FindKind(FileTable(d).value, PT_SCE_PROC_PRX_PARAM)
         == Some(ParamPhdr(PT_SCE_PROC_PRX_PARAM, g.sections[PRX_SECTION], 4))
  {
    hide Ready, PatchAll, Patchable, GF.File, NewSlots, Table, LeftBy, FileTable, SonyTable, NoWrap, TableFits,
      FindKind, InjectedPhdrs, Disjoint;
    TableFound(c, g, seats, order, d);
    ReadyRuns(c, g, seats, order);
    ReadyDisjoint(c, g, seats, order);
    PatchedTable(g, order);
    PrxTable(c, g, seats, order);
    LastIsPrx(SonyTable(BeforeTable(g)), g.sections);
  }

  /** The imports do not depend on the function descriptors: a loader that
      starts from the PRX parameter header of a file that is the patched one but
      for its descriptors reads back exactly the configured libraries. */
  lemma {:induction false} ImportsOf(c: Config, g: Image, seats: Placement, order: seq<string>, d: seq<byte>)
    requires Ready(c, g, seats, order) && U64(g.data[32..40]) == g.phoff
    requires Patchable(g) && Known(g, order) && LeftBy(g, order, d)
    ensures StubSymbols(c.libs, g.symbols) && Imports(d) == Some(Expectation(c.libs, g.symbols))
  {
    hide Ready, PatchAll, Patchable, GF.File, NewSlots, Table, Word, Expected, DecodeImport, Memory, MemoryOf, LeftBy,
      FileTable, Loadable, CanRunAll, Linked, Separated, SonyTable, NoWrap, TableFits, Walk, FindKind, InjectedPhdrs,
      Assembles, MoldierDirectives, Disjoint, Start, End;
    PatchedMemory(c, g, seats, order, d);
    TableFound(c, g, seats, order, d);
    PrxParamsFound(c, g, seats, order, d);
    ReadyRuns(c, g, seats, order);
    PrxTable(c, g, seats, order);
    StubTable(c, g, seats, order);
    var h := PatchAll(g, order);
    var m := Memory(AfterTable(g, h), d);
    BoundsRead(c, g, seats, order, m);
    forall i | 0 <= i < |c.libs|
      ensures HEADER_SECTION in g.sections
      ensures forall k :: 0 <= k < |c.libs[i].functions| ==> c.libs[i].functions[k].name + "_stub" in g.symbols
      ensures DecodeImport(m, StubSection(g).addr + 44 * i) == Expected(g.symbols, c.libs[i])
    {
      ImportRead(c, g, seats, order, m, i);
    }
    TableWalk(c, g, m);
  }

  /** End to end: for every configuration, every linked placement below 2^32 and
      every hash order, the loader of the patched file reads back exactly the
      configured libraries in key order, each with its name, module id, FNID
      list and the slots named by its functions' `_stub` symbols. */
  lemma {:induction false} ImportRoundTrip(c: Config, g: Image, seats: Placement, order: seq<string>)
    requires Ready(c, g, seats, order) && U64(g.data[32..40]) == g.phoff
    ensures Patchable(g) && Known(g, order) && StubSymbols(c.libs, g.symbols)
    ensures Imports(PatchAll(g, order).data) == Some(Expectation(c.libs, g.symbols))
  {
    hide Ready, PatchAll, Patchable, Imports, Expectation, StubSymbols, NewSlots, NoWrap, Disjoint, TableFits;
    ReadyRuns(c, g, seats, order);
    ReadyDisjoint(c, g, seats, order);
    PatchedPhdrs(g, order);
    ImportsOf(c, g, seats, order, PatchAll(g, order).data);
  }

  lemma {:induction false} TableWalk(c: Config, g: Image, m: map<nat, byte>)
    requires |c.libs| > 0 ==> HEADER_SECTION in g.sections
    requires HEADER_SECTION in g.sections ==> StubSection(g).size as int == 44 * |c.libs| && StubSection(g).addr + StubSection(g).size < TWO32
    requires StubSymbols(c.libs, g.symbols)
    requires forall i :: 0 <= i < |c.libs| ==> DecodeImport(m, StubSection(g).addr + 44 * i) == Expected(g.symbols, c.libs[i])
    ensures Walk(m, Start(g.sections, LIB_STUB), End(g.sections, LIB_STUB)) == Expectation(c.libs, g.symbols)
  {
    hide DecodeImport, Expected;
    if HEADER_SECTION in g.sections {
      hide Walk;
      var base := StubSection(g).addr;
      WalkReads(m, base, 0, |c.libs|);
      var r := Walk(m, base, base + 44 * |c.libs|);
      forall i | 0 <= i < |c.libs| ensures r[i] == Expected(g.symbols, c.libs[i]) {
        assert r[i] == DecodeImport(m, base + 44 * (0 + i));
      }
    }
  }
}
