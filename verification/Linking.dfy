/** What a linker is assumed to do with the assembled file. */
module Linking {
  import opened Bytes
  import opened Wrappers
  import opened Elf
  import opened Passes
  import opened ProgramHeaders
  import opened Locality
  import opened LoadImage
  import opened Assembly
  import opened Instructions
  import opened Config
  import opened ImportLayout
  import opened NameClashes
  import opened LabelNames
  import GF = GeneratedFile
  import B = Binding

  /** Where a section went: its load address and its file offset. */
  datatype Seat = Seat(addr: nat, off: nat)

  /** The linker's choices: the seats of the sections and the TOC base. */
  datatype Placement = Placement(at: map<string, Seat>, toc: u64)

  predicate Placed(o: Object, s: string) {
    s in o.contents && o.contents[s] != []
  }

  function BeforeTable(g: Image): seq<Phdr>
    requires OldTableFits(g)
  {
    Table(g.data, g.phoff, g.phnum)
  }

  /** How far each label is from the TOC base. */
  ghost function Offsets(o: Object, seats: Placement): map<string, int> {
    map l | l in o.labels && o.labels[l].sec in seats.at :: seats.at[o.labels[l].sec].addr + o.labels[l].off - seats.toc
  }

  /** Byte `k` of section `s` after relocation: the words of instructions that
      refer to the TOC get their offset, every other byte is as assembled. */
  function LinkedByte(o: Object, offsets: map<string, int>, s: string, k: nat): byte
    requires s in o.contents && k < |o.contents[s]|
  {
    var p := Place(s, k - k % 4);
    if p in o.code && Toc(o.code[p]) then BE(InsnWord(Resolve(o.code[p], offsets)), 4)[k % 4]
    else o.contents[s][k]
  }

  /** Section `s` is in the file at its seat, relocated, below 2^32, and loaded
      from there. */
  ghost predicate Seated(g: Image, o: Object, seats: Placement, s: string)
    requires OldTableFits(g) && s in o.contents
  {
    && s in seats.at
    && var t, c := seats.at[s], o.contents[s];
    && t.addr + |c| < TWO32 && t.off + |c| <= |g.data|
    && (forall k :: 0 <= k < |c| ==> ByteSeated(g, o, seats, s, k))
  }

  /** Byte `k` of the section is in the file and loaded from there. */
  ghost predicate ByteSeated(g: Image, o: Object, seats: Placement, s: string, k: nat)
    requires OldTableFits(g) && s in o.contents && s in seats.at && k < |o.contents[s]|
    requires seats.at[s].off + |o.contents[s]| <= |g.data|
  {
    && g.data[seats.at[s].off + k] == LinkedByte(o, Offsets(o, seats), s, k)
    && FileOffset(BeforeTable(g), seats.at[s].addr + k) == Some(seats.at[s].off + k)
  }

  /** Only code is relocated. */
  lemma {:induction false} PlainByte(c: Config, offsets: map<string, int>, s: string, k: nat)
    requires Assembles(MoldierDirectives(c)) && s in GF.File(c).contents && k < |GF.File(c).contents[s]|
    requires s != TEXT_SECTION
    ensures LinkedByte(GF.File(c), offsets, s, k) == GF.File(c).contents[s][k]
  {
    hide GF.File, MoldierDirectives, Assembles, CodeWritten;
    GF.CodeInFile(c);
  }

  /** The section header of `s` describes its seat. */
  predicate Described(g: Image, o: Object, seats: Placement, s: string)
    requires s in o.contents && s in seats.at && s in g.sections
  {
    g.sections[s].addr == seats.at[s].addr && g.sections[s].offset == seats.at[s].off
      && g.sections[s].size == |o.contents[s]|
  }

  /** An address inside `.lib.stub`. */
  predicate InHeaders(g: Image, a: u64) {
    HEADER_SECTION in g.sections && var s := g.sections[HEADER_SECTION]; s.addr <= a < s.addr + s.size
  }

  /** Sections with bytes do not overlap in memory. */
  ghost predicate AddressesApart(o: Object, at: map<string, Seat>)
    requires forall s :: Placed(o, s) ==> s in at
  {
    forall s, t :: (Placed(o, s) && Placed(o, t) && s != t) ==>
      Apart(at[s].addr, at[s].addr + |o.contents[s]|, at[t].addr, at[t].addr + |o.contents[t]|)
  }

  /** Each label has a symbol with its address. */
  ghost predicate LabelsLinked(g: Image, o: Object, at: map<string, Seat>) {
    forall l :: l in o.labels && l != "" ==>
      var p := o.labels[l];
      p.sec in at && l in g.symbols && g.symbols[l] == at[p.sec].addr + p.off
  }

  /** `[a, b)` and `[c, e)` do not overlap. */
  predicate Apart(a: nat, b: nat, c: nat, e: nat) {
    b <= c || e <= a
  }

  /** The image contains the relocated sections and the values of their labels;
      `.lib.stub` and the PRX parameter block are output sections of their own,
      and no other object puts a `_prx_header` symbol into `.lib.stub`. */
  ghost predicate Linked(g: Image, o: Object, seats: Placement)
    requires OldTableFits(g)
  {
    && (forall s :: s in o.contents ==> Seated(g, o, seats, s))
    && AddressesApart(o, seats.at) && LabelsLinked(g, o, seats.at)
    && PRX_SECTION in o.contents && PRX_SECTION in g.sections && Described(g, o, seats, PRX_SECTION)
    && HEADER_SECTION in o.contents && (Placed(o, HEADER_SECTION) ==> HEADER_SECTION in g.sections)
    && (HEADER_SECTION in g.sections ==> Described(g, o, seats, HEADER_SECTION))
    && (forall h :: B.IsHeader(g.symbols, h) && InHeaders(g, h.addr) ==> h.lib + "_prx_header" in o.labels)
  }

  /** In the file, the ELF header, the program header table, `.opd` and the
      assembled sections do not overlap. */
  ghost predicate Separated(g: Image, o: Object, seats: Placement)
    requires OldTableFits(g)
  {
    var t, u, p, q := g.phoff, g.phoff + PHENTSIZE * Slots(g), OpdBase(g), OpdBase(g) + DESCRIPTOR_SIZE * OpdDone(g);
    && t >= 64 && (OpdDone(g) > 0 ==> p >= 64 && Apart(t, u, p, q))
    && (forall s :: Placed(o, s) && s in seats.at ==>
          var a, b := seats.at[s].off, seats.at[s].off + |o.contents[s]|;
          a >= 64 && Apart(t, u, a, b) && (OpdDone(g) > 0 ==> Apart(p, q, a, b)))
    && (forall s, r :: (Placed(o, s) && Placed(o, r) && s in seats.at && r in seats.at && s != r) ==>
          Apart(seats.at[s].off, seats.at[s].off + |o.contents[s]|, seats.at[r].off, seats.at[r].off + |o.contents[r]|))
  }

  // ---------- which header symbols lie in `.lib.stub` ----------

  lemma {:induction false} LabelHasOwner(c: Config, l: string)
    requires Assembles(MoldierDirectives(c)) && l in GF.File(c).labels
    ensures exists w :: w in Owners(c.libs) && LabelOf(w) == l
  {
    hide Layout, MoldierDirectives, Labels, Owners, Fresh, Assembles;
    GF.AllFresh(c);
    LayoutExtends(EMPTY_OBJECT, MoldierDirectives(c));
    FileLabels(c);
    var ls := LabelsOf(Owners(c.libs));
    assert l in ls;
    var i :| 0 <= i < |ls| && ls[i] == l;
    assert Owners(c.libs)[i] in Owners(c.libs);
  }

  lemma {:induction false} FunctionOf(libs: seq<Library>, f: string)
    requires f in FunctionNames(libs)
    ensures exists i, k :: 0 <= i < |libs| && 0 <= k < |libs[i].functions| && libs[i].functions[k].name == f
  {
    hide NamesOf;
    if libs != [] {
      var n := |libs| - 1;
      if f in NamesOf(libs[n].functions) {
        var k :| 0 <= k < |libs[n].functions| && NamesOf(libs[n].functions)[k] == f;
        assert libs[n].functions[k].name == f;
      } else {
        assert f in FunctionNames(libs[..n]);
        FunctionOf(libs[..n], f);
        var i, k :| 0 <= i < |libs[..n]| && 0 <= k < |libs[..n][i].functions| && libs[..n][i].functions[k].name == f;
        assert libs[i].functions[k].name == f;
      }
    }
  }

  lemma {:induction false} OwnerOfHeaderLabel(w: Owner, lib: string)
    requires LabelOf(w) == lib + "_prx_header"
    ensures w == OfLib(lib, PrxHeader) || w == EntryOf(lib + "_prx_header")
  {
    if !w.EntryOf? { LabelsInjective(w, OfLib(lib, PrxHeader)); }
  }

  lemma {:induction false} LibraryOf(libs: seq<Library>, lib: string)
    requires lib in LibNames(libs)
    ensures exists i :: 0 <= i < |libs| && libs[i].name == lib
  {
    hide LibNames;
    var i :| 0 <= i < |LibNames(libs)| && LibNames(libs)[i] == lib;
    assert libs[i].name == lib;
  }

  /** A generated label that ends in `_prx_header` is a library's header label
      or the name of a function. */
  lemma {:induction false} HeaderLabelOwner(c: Config, lib: string)
    requires Assembles(MoldierDirectives(c)) && lib + "_prx_header" in GF.File(c).labels
    ensures (exists i :: 0 <= i < |c.libs| && c.libs[i].name == lib)
         || (exists i, k :: 0 <= i < |c.libs| && 0 <= k < |c.libs[i].functions| && c.libs[i].functions[k].name == lib + "_prx_header")
  {
    hide MoldierDirectives, Owners, Assembles, GF.File, LibNames, FunctionNames, LabelOf;
    LabelHasOwner(c, lib + "_prx_header");
    var w :| w in Owners(c.libs) && LabelOf(w) == lib + "_prx_header";
    OwnerPresent(c.libs, w);
    OwnerOfHeaderLabel(w, lib);
    if w == OfLib(lib, PrxHeader) { LibraryOf(c.libs, lib); } else { FunctionOf(c.libs, lib + "_prx_header"); }
  }

  /** `h` is the header of a library, at its place in a table at `base`. */
  ghost predicate LibraryHeader(libs: seq<Library>, base: nat, h: Passes.Header) {
    exists i :: 0 <= i < |libs| && libs[i].name == h.lib && h.addr == base + 44 * i
  }

  /** The header symbols inside `.lib.stub` are exactly the libraries' own. */
  lemma {:induction false} HeaderSymbols(c: Config, g: Image, seats: Placement, h: Passes.Header)
    requires Assembles(MoldierDirectives(c)) && OldTableFits(g) && Linked(g, GF.File(c), seats)
    requires B.IsHeader(g.symbols, h) && InHeaders(g, h.addr)
    ensures LibraryHeader(c.libs, g.sections[HEADER_SECTION].addr, h)
  {
    hide MoldierDirectives, Assembles, GF.File, BeforeTable, HeaderTable, Seated;
    var o := GF.File(c);
    HeaderLabelOwner(c, h.lib);
    GF.HeadersInFile(c);
    var l := h.lib + "_prx_header";
    if i :| 0 <= i < |c.libs| && c.libs[i].name == h.lib {
      assert BoundTo(o, c.libs[i].name + "_prx_header", Place(HEADER_SECTION, 44 * i));
    } else {
      var i, k :| 0 <= i < |c.libs| && 0 <= k < |c.libs[i].functions| && c.libs[i].functions[k].name == l;
      GF.TrampolinePlaced(c, i, k);
      InTextSection(o, c.libs[i].functions[k]);
      assert false;
    }
  }

  lemma {:induction false} InTextSection(o: Object, f: Function)
    requires StubLaid(o, f)
    ensures f.name in o.labels && o.labels[f.name].sec == TEXT_SECTION && TEXT_SECTION in o.contents
    ensures o.labels[f.name].off + 64 <= |o.contents[TEXT_SECTION]| && Placed(o, TEXT_SECTION)
    ensures TEXT_SECTION != HEADER_SECTION
  {
    assert |TEXT_SECTION| == 13 && |HEADER_SECTION| == 9;
  }
}
