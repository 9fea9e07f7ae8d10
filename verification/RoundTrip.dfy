/** The import round trip: what the configuration says is what a loader reads
    out of the linked and patched file. */
module RoundTrip {
  import opened Bytes
  import opened Wrappers
  import opened Lists
  import opened Elf
  import opened Passes
  import opened ProgramHeaders
  import opened Locality
  import opened Independence
  import opened LoadImage
  import opened Assembly
  import opened Config
  import opened ImportLayout
  import opened NameClashes
  import opened Linking
  import opened Loader
  import GF = GeneratedFile
  import B = Binding
  import Rerun

  /** A linked image the patcher can work on. */
  ghost predicate Ready(c: Config, g: Image, seats: Placement, order: seq<string>) {
    && KeyOrdered(c.libs) && Assembles(MoldierDirectives(c))
    && |g.data| >= 64 && TableFits(g) && |NewSlots(g)| < 0x1_0000 && OpdFits(g) && NoWrap(g)
    && Loadable(BeforeTable(g), |g.data|) && Enumerates(order, g.symbols)
    && Linked(g, GF.File(c), seats) && Separated(g, GF.File(c), seats)
  }

  function StubSection(g: Image): Section
    requires HEADER_SECTION in g.sections
  {
    g.sections[HEADER_SECTION]
  }

  lemma {:induction false} StubTable(c: Config, g: Image, seats: Placement, order: seq<string>)
    requires Ready(c, g, seats, order)
    ensures |c.libs| > 0 ==> HEADER_SECTION in g.sections
    ensures HEADER_SECTION in g.sections ==>
      var s := StubSection(g);
      && s.size as int == 44 * |c.libs| && s.offset + s.size <= |g.data| && s.addr + s.size < TWO32
      && (|c.libs| > 0 ==> s.offset >= 64)
      && HEADER_SECTION in seats.at && HEADER_SECTION in GF.File(c).contents
        && Described(g, GF.File(c), seats, HEADER_SECTION)
      && (forall i :: 0 <= i < |c.libs| ==>
            B.IsHeader(g.symbols, Passes.Header(c.libs[i].name, s.addr + 44 * i)))
  {
    hide MoldierDirectives, Assembles, GF.File, NoWrap, OpdFits, Loadable, Enumerates, KeyOrdered, LibNamesPlain,
      HeaderTable, BeforeTable, NewSlots;
    GF.HeadersInFile(c);
    var o := GF.File(c);
    assert |o.contents[HEADER_SECTION]| == 44 * |c.libs|;
    assert Seated(g, o, seats, HEADER_SECTION);
    forall i | 0 <= i < |c.libs| && HEADER_SECTION in g.sections
      ensures B.IsHeader(g.symbols, Passes.Header(c.libs[i].name, StubSection(g).addr + 44 * i))
    {
      assert BoundTo(o, c.libs[i].name + "_prx_header", Place(HEADER_SECTION, 44 * i));
      assert |c.libs[i].name + "_prx_header"| > 0;
    }
  }

  /** The headers the pass binds are exactly those of the libraries. */
  lemma {:induction false} BoundAre(c: Config, g: Image, seats: Placement, order: seq<string>, h: Passes.Header)
    requires Ready(c, g, seats, order) && HEADER_SECTION in g.sections
    ensures Known(g, order)
    ensures h in StubHeaders(g, order) && Binds(StubSection(g), |g.data|, h) <==> LibraryHeader(c.libs, StubSection(g).addr, h)
  {
    hide Ready, StubHeaders, GF.File, MoldierDirectives, Assembles, Linked, Separated, TableFits, NoWrap, CanRunAll,
      Loadable, NewSlots, BeforeTable;
    ReadyRuns(c, g, seats, order);
    B.StubHeadersAre(g, order);
    StubTable(c, g, seats, order);
    if h in StubHeaders(g, order) && Binds(StubSection(g), |g.data|, h) {
      HeaderSymbols(c, g, seats, h);
    }
    if LibraryHeader(c.libs, StubSection(g).addr, h) {
      var i :| 0 <= i < |c.libs| && c.libs[i].name == h.lib && h.addr == StubSection(g).addr + 44 * i;
      assert B.IsHeader(g.symbols, Passes.Header(c.libs[i].name, StubSection(g).addr + 44 * i));
    }
  }

  /** Every byte of a bound header lies in `.lib.stub`. */
  lemma {:induction false} StubFieldInside(c: Config, g: Image, seats: Placement, order: seq<string>, i: nat)
    requires Ready(c, g, seats, order) && CanRun(FixStubs, g) && Known(g, order) && Region(FixStubs, g, order, i)
    ensures HEADER_SECTION in g.sections && |c.libs| > 0
    ensures StubSection(g).offset <= i < StubSection(g).offset + StubSection(g).size
  {
    hide Ready, StubHeaders;
    var s := g.sections[LIB_STUB];
    var h :| h in StubHeaders(g, order) && Binds(s, |g.data|, h) && HeaderField(HeaderOffset(s, h), i);
    BoundAre(c, g, seats, order, h);
    StubTable(c, g, seats, order);
  }

  lemma {:induction false} PrxTable(c: Config, g: Image, seats: Placement, order: seq<string>)
    requires Ready(c, g, seats, order)
    ensures PRX_SECTION in g.sections && PRX_SECTION in GF.File(c).contents && PRX_SECTION in seats.at
    ensures Placed(GF.File(c), PRX_SECTION)
    ensures |GF.File(c).contents[PRX_SECTION]| == 40
    ensures var s := g.sections[PRX_SECTION];
      s.size == 40 && s.offset >= 64 && s.offset + 40 <= |g.data| && s.addr + 40 < TWO32
      && s.addr == seats.at[PRX_SECTION].addr && s.offset == seats.at[PRX_SECTION].off
  {
    hide MoldierDirectives, Assembles, GF.File, NoWrap, OpdFits, Loadable, KeyOrdered, LibNamesPlain, BeforeTable,
      NewSlots;
    GF.PrxParamsInFile(c);
  }

  lemma {:induction false} ReadyRuns(c: Config, g: Image, seats: Placement, order: seq<string>)
    requires Ready(c, g, seats, order)
    ensures CanRunAll(g) && Known(g, order) && TableClearOfHeader(g) && NoWrap(g) && OldTableFits(g)
    ensures |NewSlots(g)| < 0x1_0000 && Loadable(BeforeTable(g), |g.data|) && Enumerates(order, g.symbols)
    ensures Linked(g, GF.File(c), seats) && Separated(g, GF.File(c), seats)
    ensures Assembles(MoldierDirectives(c))
  {
    PrxTable(c, g, seats, order);
    hide MoldierDirectives, GF.File, NoWrap, OpdFits, Loadable, KeyOrdered, LibNamesPlain, BeforeTable, NewSlots,
      Linked, Assembles;
  }

  /** The file range that contains the region of each pass. */
  predicate InRangeOf(c: Config, g: Image, p: Pass, i: nat)
    requires OldTableFits(g) && PRX_SECTION in g.sections
  {
    match p
    case FixOsAbi => i == 7
    case FixPhdrs => 56 <= i < 58 || g.phoff <= i < g.phoff + PHENTSIZE * Slots(g)
    case FixStubs => |c.libs| > 0 && HEADER_SECTION in g.sections
                     && StubSection(g).offset <= i < StubSection(g).offset + StubSection(g).size
    case FixOpd => OpdBase(g) <= i < OpdBase(g) + DESCRIPTOR_SIZE * OpdDone(g)
    case FixPrxParams => g.sections[PRX_SECTION].offset <= i < g.sections[PRX_SECTION].offset + 40
  }

  lemma {:induction false} RegionRange(c: Config, g: Image, seats: Placement, order: seq<string>, p: Pass, i: nat)
    requires Ready(c, g, seats, order)
    ensures CanRunAll(g) && Known(g, order) && OldTableFits(g) && PRX_SECTION in g.sections
    ensures Region(p, g, order, i) ==> InRangeOf(c, g, p, i)
  {
    hide Ready, StubHeaders, StubField, Slots, OpdDone, NewSlots, Linked, Separated, NoWrap, Loadable, Assembles,
      MoldierDirectives, GF.File;
    ReadyRuns(c, g, seats, order);
    PrxTable(c, g, seats, order);
    if p == FixStubs && Region(p, g, order, i) { StubFieldInside(c, g, seats, order, i); }
  }

  /** No pass region overlaps another. */
  lemma {:induction false} ReadyDisjoint(c: Config, g: Image, seats: Placement, order: seq<string>)
    requires Ready(c, g, seats, order)
    ensures CanRunAll(g) && Known(g, order) && Disjoint(g, order)
  {
    hide Ready, Region, InRangeOf, NoWrap, Loadable, Linked, Separated, Assembles, MoldierDirectives, GF.File,
      NewSlots, TableFits;
    ReadyRuns(c, g, seats, order);
    PrxTable(c, g, seats, order);
    forall p: Pass, q: Pass, i: nat | Region(p, g, order, i) && Region(q, g, order, i) ensures p == q {
      RegionRange(c, g, seats, order, p, i);
      RegionRange(c, g, seats, order, q, i);
      RangesDisjoint(c, g, seats, order, p, q, i);
    }
  }

  lemma {:induction false} RangesDisjoint(c: Config, g: Image, seats: Placement, order: seq<string>, p: Pass, q: Pass,
      i: nat)
    requires Ready(c, g, seats, order) && OldTableFits(g) && PRX_SECTION in g.sections
    requires InRangeOf(c, g, p, i) && InRangeOf(c, g, q, i)
    ensures p == q
  {
    hide Ready, Slots, OpdDone, OpdBase;
    RangesApart(c, g, seats, order);
  }

  lemma {:induction false} RangesApart(c: Config, g: Image, seats: Placement, order: seq<string>)
    requires Ready(c, g, seats, order)
    ensures PRX_SECTION in g.sections
    ensures var t, u, p, q := g.phoff, g.phoff + PHENTSIZE * Slots(g), OpdBase(g),
        OpdBase(g) + DESCRIPTOR_SIZE * OpdDone(g);
      var x := g.sections[PRX_SECTION].offset;
      && t >= 64 && (OpdDone(g) > 0 ==> p >= 64 && Apart(t, u, p, q)) && x >= 64
      && Apart(t, u, x, x + 40) && (OpdDone(g) > 0 ==> Apart(p, q, x, x + 40))
      && (|c.libs| > 0 ==>
            && HEADER_SECTION in g.sections
            && var a, b := StubSection(g).offset, StubSection(g).offset + StubSection(g).size;
            && a >= 64 && Apart(t, u, a, b) && (OpdDone(g) > 0 ==> Apart(p, q, a, b)) && Apart(a, b, x, x + 40))
  {
    hide Ready, CanRunAll, Known, TableClearOfHeader, Enumerates;
    hide MoldierDirectives, GF.File, NoWrap, OpdFits, Loadable, KeyOrdered, LibNamesPlain, BeforeTable, NewSlots,
      Linked, Assembles, Slots, OpdDone, OpdBase, TableFits;
    ReadyRuns(c, g, seats, order);
    PrxTable(c, g, seats, order);
    StubTable(c, g, seats, order);
    assert |PRX_SECTION| == 19 && |HEADER_SECTION| == 9;
    var o := GF.File(c);
    if |c.libs| > 0 {
      assert Placed(o, HEADER_SECTION);
    }
  }

  // ---------- reading the patched memory ----------

  /** Outside function descriptors, memory reads are file reads. */
  ghost predicate MemoryOf(g: Image, m: map<nat, byte>, d: seq<byte>)
    requires OldTableFits(g)
  {
    forall v {:trigger FileOffset(BeforeTable(g), v)} ::
      FileOffset(BeforeTable(g), v).Some? && !OpdByte(g, FileOffset(BeforeTable(g), v).value) ==>
        && FileOffset(BeforeTable(g), v).value < |d|
        && v in m && m[v] == d[FileOffset(BeforeTable(g), v).value]
  }

  /** The section does not overlap the descriptors. */
  predicate ClearOfOpd(g: Image, o: Object, seats: Placement, s: string)
    requires s in o.contents && s in seats.at
  {
    forall k :: 0 <= k < |o.contents[s]| ==> OffOpd(g, seats.at[s].off, k)
  }

  predicate OffOpd(g: Image, off: nat, k: nat) { !OpdByte(g, off + k) }

  lemma {:induction false} ReadyClear(c: Config, g: Image, seats: Placement, order: seq<string>, s: string)
    requires Ready(c, g, seats, order) && s in GF.File(c).contents
    ensures s in seats.at && ClearOfOpd(g, GF.File(c), seats, s)
  {
    hide GF.File, BeforeTable, NoWrap, NewSlots, Loadable, Assembles, MoldierDirectives, OpdFits, KeyOrdered,
      LibNamesPlain, Enumerates, OpdBase, OpdDone, Slots;
    assert Seated(g, GF.File(c), seats, s);
    if GF.File(c).contents[s] != [] { assert Placed(GF.File(c), s); }
  }

  lemma {:induction false} ByteThroughSeat(g: Image, o: Object, seats: Placement, s: string, m: map<nat, byte>,
      d: seq<byte>, k: nat)
    requires OldTableFits(g) && s in o.contents && Seated(g, o, seats, s) && MemoryOf(g, m, d) && |d| == |g.data|
    requires s in seats.at && ClearOfOpd(g, o, seats, s) && k < |o.contents[s]|
    ensures seats.at[s].off + k < |d| && ByteAt(m, seats.at[s].addr + k) == d[seats.at[s].off + k]
  {
    hide BeforeTable, OpdByte, LinkedByte;
    assert ByteSeated(g, o, seats, s, k);
    assert OffOpd(g, seats.at[s].off, k);
    assert FileOffset(BeforeTable(g), seats.at[s].addr + k) == Some(seats.at[s].off + k);
  }

  lemma {:induction false} ThroughSeat(g: Image, o: Object, seats: Placement, s: string, m: map<nat, byte>,
      d: seq<byte>, k: nat, n: nat)
    requires OldTableFits(g) && s in o.contents && Seated(g, o, seats, s) && MemoryOf(g, m, d) && |d| == |g.data|
    requires s in seats.at && ClearOfOpd(g, o, seats, s) && k + n <= |o.contents[s]|
    ensures seats.at[s].off + k + n <= |d|
    ensures Read(m, seats.at[s].addr + k, n) == d[seats.at[s].off + k..seats.at[s].off + k + n]
  {
    hide Seated, MemoryOf, BeforeTable, ClearOfOpd, Read;
    SeatInFile(g, o, seats, s);
    var a, f := seats.at[s].addr + k, seats.at[s].off + k;
    forall i | 0 <= i < n ensures Read(m, a, n)[i] == d[f..f + n][i] {
      ByteThroughSeat(g, o, seats, s, m, d, k + i);
    }
  }

  lemma {:induction false} SeatInFile(g: Image, o: Object, seats: Placement, s: string)
    requires OldTableFits(g) && s in o.contents && Seated(g, o, seats, s)
    ensures s in seats.at && seats.at[s].off + |o.contents[s]| <= |g.data| && seats.at[s].addr + |o.contents[s]| < TWO32
  {
    hide BeforeTable;
  }

  /** Bytes of a section no pass touches. */
  lemma {:induction false} UntouchedByte(c: Config, g: Image, seats: Placement, order: seq<string>, s: string,
      k: nat)
    requires Ready(c, g, seats, order) && s in GF.File(c).contents && k < |GF.File(c).contents[s]|
    requires s != HEADER_SECTION && s != PRX_SECTION
    ensures Patchable(g) && s in seats.at && seats.at[s].off + k < |g.data| == |PatchAll(g, order).data|
    ensures PatchAll(g, order).data[seats.at[s].off + k] == LinkedByte(GF.File(c), Offsets(GF.File(c), seats), s, k)
  {
    hide Ready, PatchAll, Patchable, Region, GF.File, BeforeTable, NoWrap, TableFits, Disjoint, InRangeOf, NewSlots,
      Separated, Linked, Loadable, LinkedByte, Offsets;
    ReadyRuns(c, g, seats, order);
    ReadyDisjoint(c, g, seats, order);
    SeatedSection(c, g, seats, order, s, k);
    var i := seats.at[s].off + k;
    forall p: Pass ensures !Region(p, g, order, i) {
      RegionRange(c, g, seats, order, p, i);
      SectionOutsideRanges(c, g, seats, order, s, k, p);
    }
    Rerun.UnownedByte(g, order, i);
    PatchedPhdrs(g, order);
  }

  lemma {:induction false} SeatedSection(c: Config, g: Image, seats: Placement, order: seq<string>, s: string,
      k: nat)
    requires Ready(c, g, seats, order) && s in GF.File(c).contents && k < |GF.File(c).contents[s]|
    ensures OldTableFits(g) && Seated(g, GF.File(c), seats, s)
    ensures s in seats.at && seats.at[s].off + k < |g.data|
    ensures g.data[seats.at[s].off + k] == LinkedByte(GF.File(c), Offsets(GF.File(c), seats), s, k)
    ensures s != TEXT_SECTION ==> g.data[seats.at[s].off + k] == GF.File(c).contents[s][k]
  {
    hide GF.File, BeforeTable, NoWrap, NewSlots, Separated, Loadable, Assembles, MoldierDirectives, OpdFits,
      KeyOrdered, LibNamesPlain, Enumerates, LinkedByte, Offsets;
    assert Seated(g, GF.File(c), seats, s);
    assert ByteSeated(g, GF.File(c), seats, s, k);
    if s != TEXT_SECTION { PlainByte(c, Offsets(GF.File(c), seats), s, k); }
  }

  lemma {:induction false} SectionOutsideRanges(c: Config, g: Image, seats: Placement, order: seq<string>, s: string,
      k: nat, p: Pass)
    requires Ready(c, g, seats, order) && s in GF.File(c).contents && k < |GF.File(c).contents[s]|
    requires s != HEADER_SECTION && s != PRX_SECTION && s in seats.at
    ensures OldTableFits(g) && PRX_SECTION in g.sections && !InRangeOf(c, g, p, seats.at[s].off + k)
  {
    hide Ready, CanRunAll, Known, TableClearOfHeader, Enumerates;
    hide MoldierDirectives, GF.File, NoWrap, OpdFits, Loadable, KeyOrdered, LibNamesPlain, BeforeTable, NewSlots,
      Linked, Assembles, Slots, OpdDone, OpdBase, TableFits;
    ReadyRuns(c, g, seats, order);
    PrxTable(c, g, seats, order);
    StubTable(c, g, seats, order);
    var o := GF.File(c);
    assert Placed(o, s);
    if |c.libs| > 0 { assert Placed(o, HEADER_SECTION); }
  }

  // ---------- the patched table ----------

  /** Byte `x` belongs to header `i` of the table. */
  predicate InHeader(g: Image, i: nat, x: nat)
    requires HEADER_SECTION in g.sections
  {
    StubSection(g).offset + 44 * i <= x < StubSection(g).offset + 44 * i + 44
  }

  /** The patched bytes of header `i` are those of binding it alone. */
  lemma {:induction false} PatchedHeaderByte(c: Config, g: Image, seats: Placement, order: seq<string>, i: nat,
      x: nat)
    requires Ready(c, g, seats, order) && i < |c.libs| && HEADER_SECTION in g.sections && InHeader(g, i, x)
    ensures Patchable(g) && Known(g, order)
    ensures StubSection(g).offset + 44 * i + 44 <= |g.data| == |PatchAll(g, order).data|
    ensures PatchAll(g, order).data[x]
        == BindHeader(g.symbols, c.libs[i].name, StubSection(g).offset + 44 * i, g.data)[x]
  {
    hide Ready, PatchAll, Patchable, Region, GF.File, BeforeTable, NoWrap, TableFits, Disjoint, NewSlots, Separated,
      Linked, Loadable, BindHeader, BindAll, StubHeaders, InRangeOf;
    ReadyRuns(c, g, seats, order);
    ReadyDisjoint(c, g, seats, order);
    StubTable(c, g, seats, order);
    PatchedPhdrs(g, order);
    var s, at := StubSection(g), StubSection(g).offset + 44 * i;
    var h := Passes.Header(c.libs[i].name, s.addr + 44 * i);
    BoundAre(c, g, seats, order, h);
    if HeaderField(at, x) {
      assert Region(FixStubs, g, order, x) by { StubFieldRegion(g, order, h, x); }
      PipelineAt(g, order, FixStubs, x);
      LibrariesSpaced(c, g, seats, order);
      BoundByte(g, order, h, x);
    } else {
      BindHeaderFrame(g.symbols, c.libs[i].name, at, g.data);
      forall p: Pass ensures !Region(p, g, order, x) {
        NotAField(c, g, seats, order, i, x, p);
      }
      Rerun.UnownedByte(g, order, x);
    }
  }

  lemma {:induction false} StubFieldRegion(g: Image, order: seq<string>, h: Passes.Header, i: nat)
    requires Known(g, order) && CanRun(FixStubs, g) && HEADER_SECTION in g.sections && StubSection(g).size >= 44
    requires h in StubHeaders(g, order) && Binds(StubSection(g), |g.data|, h)
    requires HeaderField(HeaderOffset(StubSection(g), h), i)
    ensures Region(FixStubs, g, order, i)
  {
    hide StubHeaders, HeaderField;
  }

  lemma {:induction false} LibrariesSpaced(c: Config, g: Image, seats: Placement, order: seq<string>)
    requires Ready(c, g, seats, order) && HEADER_SECTION in g.sections
    ensures Known(g, order) && NoDup(StubHeaders(g, order)) && B.Spaced(StubSection(g), |g.data|, StubHeaders(g, order))
  {
    hide Ready, StubHeaders, NoWrap, TableFits, Separated, Linked, Loadable, NewSlots, BeforeTable, GF.File,
      Assembles, MoldierDirectives;
    ReadyRuns(c, g, seats, order);
    B.StubHeadersAre(g, order);
    forall a, b | a in StubHeaders(g, order) && b in StubHeaders(g, order) && Binds(StubSection(g), |g.data|, a) && Binds(StubSection(g), |g.data|, b) && a != b
      ensures a.addr + HEADER_SIZE <= b.addr || b.addr + HEADER_SIZE <= a.addr
    {
      BoundAre(c, g, seats, order, a);
      BoundAre(c, g, seats, order, b);
      OneHeaderPerPlace(c.libs, StubSection(g).addr, a, b);
    }
  }

  lemma {:induction false} OneHeaderPerPlace(libs: seq<Library>, base: nat, a: Passes.Header, b: Passes.Header)
    requires LibraryHeader(libs, base, a) && LibraryHeader(libs, base, b) && a != b
    ensures a.addr + HEADER_SIZE <= b.addr || b.addr + HEADER_SIZE <= a.addr
  {
    var i :| 0 <= i < |libs| && libs[i].name == a.lib && a.addr == base + 44 * i;
    var j :| 0 <= j < |libs| && libs[j].name == b.lib && b.addr == base + 44 * j;
    assert i != j;
  }

  lemma {:induction false} BoundByte(g: Image, order: seq<string>, h: Passes.Header, i: nat)
    requires Known(g, order) && CanRun(FixStubs, g) && HEADER_SECTION in g.sections && StubSection(g).size >= 44
    requires NoDup(StubHeaders(g, order)) && B.Spaced(StubSection(g), |g.data|, StubHeaders(g, order))
    requires h in StubHeaders(g, order) && Binds(StubSection(g), |g.data|, h)
    requires HeaderField(HeaderOffset(StubSection(g), h), i)
    ensures i < |g.data| == |Run(FixStubs, g, order).data|
    ensures Run(FixStubs, g, order).data[i] == BindHeader(g.symbols, h.lib, HeaderOffset(StubSection(g), h), g.data)[i]
  {
    hide StubHeaders, BindHeader, BindAll;
    B.BindAllAt(g.symbols, StubSection(g), StubHeaders(g, order), g.data, h, i);
  }

  lemma {:induction false} NotAField(c: Config, g: Image, seats: Placement, order: seq<string>, i: nat, x: nat,
      p: Pass)
    requires Ready(c, g, seats, order) && i < |c.libs| && HEADER_SECTION in g.sections && InHeader(g, i, x)
    requires !HeaderField(StubSection(g).offset + 44 * i, x)
    ensures CanRunAll(g) && Known(g, order) && !Region(p, g, order, x)
  {
    hide Ready, Region, NoWrap, TableFits, NewSlots, Separated, Linked, Loadable, StubHeaders, GF.File, Assembles,
      MoldierDirectives;
    StubTable(c, g, seats, order);
    RegionRange(c, g, seats, order, p, x);
    if p == FixStubs {
      if Region(p, g, order, x) { StubFieldOwner(c, g, seats, order, x); }
    } else if InRangeOf(c, g, p, x) {
      assert InRangeOf(c, g, FixStubs, x);
      RangesDisjoint(c, g, seats, order, p, FixStubs, x);
    }
  }

  /** A byte the stub pass owns is a field of some library's header. */
  lemma {:induction false} StubFieldOwner(c: Config, g: Image, seats: Placement, order: seq<string>, x: nat)
    requires Ready(c, g, seats, order) && HEADER_SECTION in g.sections && Known(g, order) && CanRun(FixStubs, g)
    requires Region(FixStubs, g, order, x)
    ensures exists k :: 0 <= k < |c.libs| && HeaderField(StubSection(g).offset + 44 * k, x)
  {
    hide Ready, StubHeaders;
    var s := StubSection(g);
    var h :| h in StubHeaders(g, order) && Binds(s, |g.data|, h) && HeaderField(HeaderOffset(s, h), x);
    BoundAre(c, g, seats, order, h);
    var k :| 0 <= k < |c.libs| && c.libs[k].name == h.lib && h.addr == s.addr + 44 * k;
    assert HeaderField(s.offset + 44 * k, x);
  }

  /** The header of `lib` at file offset `at`, as bound. */
  predicate HeaderDecodes(symbols: map<string, u64>, lib: Library, d: seq<byte>, at: nat)
    requires at + 44 <= |d| && |lib.functions| < 0x1_0000
  {
    && U16(d[at + 4..at + 6]) == lib.moduleId
    && U16(d[at + 6..at + 8]) == ImportCount(symbols, lib.name, |lib.functions|)
    && U32(d[at + 16..at + 20]) == Pointer(symbols, lib.name + "_name")
    && U32(d[at + 20..at + 24]) == Pointer(symbols, lib.name + "_fnid_table")
    && U32(d[at + 24..at + 28]) == Pointer(symbols, lib.name + "_fstub_table")
  }

  lemma {:induction false} SameHeader(symbols: map<string, u64>, lib: Library, d: seq<byte>, e: seq<byte>, at: nat)
    requires at + 44 <= |d| == |e| && |lib.functions| < 0x1_0000
    requires forall x :: at <= x < at + 44 ==> d[x] == e[x]
    requires HeaderDecodes(symbols, lib, d, at)
    ensures HeaderDecodes(symbols, lib, e, at)
  {
    hide U16, U32, Pointer, ImportCount;
    assert d[at + 4..at + 6] == e[at + 4..at + 6] && d[at + 6..at + 8] == e[at + 6..at + 8];
    assert d[at + 16..at + 20] == e[at + 16..at + 20] && d[at + 20..at + 24] == e[at + 20..at + 24];
    assert d[at + 24..at + 28] == e[at + 24..at + 28];
  }

  lemma {:induction false} ReadyConfig(c: Config, g: Image, seats: Placement, order: seq<string>)
    requires Ready(c, g, seats, order)
    ensures CountsFit(c.libs) && Nameable(c.libs) && LibNamesPlain(c.libs)
  {
    hide MoldierDirectives, GF.File, Linked, Separated, TableFits, NoWrap, OpdFits, Loadable, Nameable;
    AssemblesExactly(c);
    SymbolsPlain(c.libs);
  }

  /** A header after binding: the generated words with the count and the three
      pointers filled in. */
  function FilledHeader(symbols: map<string, u64>, lib: Library): (r: seq<byte>)
    requires |lib.functions| < 0x1_0000
    ensures |r| == 44
  {
    BE(0x2c000001, 4) + BE(lib.moduleId, 2) + BE(ImportCount(symbols, lib.name, |lib.functions|), 2) + Zeros(8)
    + BE(Pointer(symbols, lib.name + "_name"), 4) + BE(Pointer(symbols, lib.name + "_fnid_table"), 4)
    + BE(Pointer(symbols, lib.name + "_fstub_table"), 4) + Zeros(16)
  }

  /** All bytes of header `i` in the patched file, and its fields decoded. */
  lemma {:induction false} PatchedHeader(c: Config, g: Image, seats: Placement, order: seq<string>, i: nat)
    requires Ready(c, g, seats, order) && i < |c.libs|
    ensures HEADER_SECTION in g.sections && Patchable(g) && Known(g, order)
    ensures StubSection(g).offset + 44 * i + 44 <= |PatchAll(g, order).data| && |c.libs[i].functions| < 0x1_0000
    ensures var at := StubSection(g).offset + 44 * i;
      PatchAll(g, order).data[at..at + 44] == FilledHeader(g.symbols, c.libs[i])
    ensures HeaderDecodes(g.symbols, c.libs[i], PatchAll(g, order).data, StubSection(g).offset + 44 * i)
  {
    hide Ready, PatchAll, Patchable, GF.File, BindHeader, HeaderDecodes, FilledHeader;
    StubTable(c, g, seats, order);
    ReadyConfig(c, g, seats, order);
    var at, lib := StubSection(g).offset + 44 * i, c.libs[i];
    PatchedHeaderByte(c, g, seats, order, i, at);
    var d, b := PatchAll(g, order).data, BindHeader(g.symbols, lib.name, at, g.data);
    forall x | at <= x < at + 44 ensures d[x] == b[x] { PatchedHeaderByte(c, g, seats, order, i, x); }
    OriginalHeader(c, g, seats, order, i);
    BoundFields(g.symbols, lib, at, g.data);
    BoundBytes(g.symbols, lib, at, g.data);
    assert d[at..at + 44] == b[at..at + 44];
    SameHeader(g.symbols, lib, b, d, at);
  }

  /** Binding a header whose bytes are as generated. */
  lemma {:induction false} BoundFields(symbols: map<string, u64>, lib: Library, at: nat, d: seq<byte>)
    requires at + 44 <= |d| && d[at..at + 44] == HeaderBytes(lib) && |lib.functions| < 0x1_0000
    ensures HeaderDecodes(symbols, lib, BindHeader(symbols, lib.name, at, d), at)
  {
    hide BindHeader, U16, U32, BE, Pointer, ImportCount;
    var b := BindHeader(symbols, lib.name, at, d);
    B.BindHeaderFields(symbols, lib.name, at, d);
    BindHeaderFrame(symbols, lib.name, at, d);
    SliceOfSlice(d, at, at + 44, 4, 6); SliceOfSlice(d, at, at + 44, 6, 8);
    SliceOfSlice(d, at, at + 44, 16, 20); SliceOfSlice(d, at, at + 44, 20, 24); SliceOfSlice(d, at, at + 44, 24, 28);
    var x := HeaderBytes(lib);
    assert x[4..6] == BE(lib.moduleId, 2) && x[6..8] == BE(|lib.functions|, 2);
    assert x[16..20] == Zeros(4) && x[20..24] == Zeros(4) && x[24..28] == Zeros(4);
    assert b[at + 4..at + 6] == d[at + 4..at + 6];
    FieldRoundTrip16(lib.moduleId);
    FieldRoundTrip16(|lib.functions|);
    ZeroWord();
    FieldRoundTrip32(Pointer(symbols, lib.name + "_name"));
    FieldRoundTrip32(Pointer(symbols, lib.name + "_fnid_table"));
    FieldRoundTrip32(Pointer(symbols, lib.name + "_fstub_table"));
  }

  lemma {:induction false} BoundBytes(symbols: map<string, u64>, lib: Library, at: nat, d: seq<byte>)
    requires at + 44 <= |d| && d[at..at + 44] == HeaderBytes(lib) && |lib.functions| < 0x1_0000
    ensures BindHeader(symbols, lib.name, at, d)[at..at + 44] == FilledHeader(symbols, lib)
  {
    hide BindHeader, BE, Val, Pointer, ImportCount;
    BoundFields(symbols, lib, at, d);
    BindHeaderFrame(symbols, lib.name, at, d);
    var b, x := BindHeader(symbols, lib.name, at, d), HeaderBytes(lib);
    BEVal(b[at + 6..at + 8]); BEVal(b[at + 16..at + 20]); BEVal(b[at + 20..at + 24]); BEVal(b[at + 24..at + 28]);
    SliceOfSlice(d, at, at + 44, 0, 6); SliceOfSlice(d, at, at + 44, 8, 16); SliceOfSlice(d, at, at + 44, 28, 44);
    assert x[0..6] == BE(0x2c000001, 4) + BE(lib.moduleId, 2) && x[8..16] == Zeros(8) && x[28..44] == Zeros(16);
    assert b[at..at + 6] == d[at..at + 6] && b[at + 8..at + 16] == d[at + 8..at + 16];
    assert b[at + 28..at + 44] == d[at + 28..at + 44];
    JoinHeader(b, at);
  }

  /** A header is its fields one after the other. */
  lemma {:induction false} JoinHeader(b: seq<byte>, at: nat)
    requires at + 44 <= |b|
    ensures b[at..at + 44] == b[at..at + 6] + b[at + 6..at + 8] + b[at + 8..at + 16] + b[at + 16..at + 20]
      + b[at + 20..at + 24] + b[at + 24..at + 28] + b[at + 28..at + 44]
  {
  }

  lemma {:induction false} ZeroWord()
    ensures U32(Zeros(4)) == 0
  {
    ZeroBytes(4);
    FieldRoundTrip32(0);
  }

  /** Before patching, header `i` is as generated. */
  lemma {:induction false} OriginalHeader(c: Config, g: Image, seats: Placement, order: seq<string>, i: nat)
    requires Ready(c, g, seats, order) && i < |c.libs|
    ensures HEADER_SECTION in g.sections
    ensures var at := StubSection(g).offset + 44 * i;
      at + 44 <= |g.data| && g.data[at..at + 44] == HeaderBytes(c.libs[i])
  {
    hide Ready, GF.File, HeaderBytes, HeaderTable, BeforeTable, Linked, Separated, NoWrap, TableFits, Loadable,
      NewSlots, MoldierDirectives;
    assert |HEADER_SECTION| == 9 && |TEXT_SECTION| == 13;
    StubTable(c, g, seats, order);
    ReadyRuns(c, g, seats, order);
    GF.HeadersInFile(c);
    HeaderSlice(c.libs, i);
    var at, t := StubSection(g).offset + 44 * i, GF.File(c).contents[HEADER_SECTION];
    assert |t| == 44 * |c.libs|;
    SeatedSection(c, g, seats, order, HEADER_SECTION, 44 * i);
    forall j | 0 <= j < 44 ensures g.data[at + j] == HeaderBytes(c.libs[i])[j] {
      SeatedSection(c, g, seats, order, HEADER_SECTION, 44 * i + j);
      assert t[44 * i..44 * i + 44][j] == t[44 * i + j];
    }
    assert g.data[at..at + 44] == HeaderBytes(c.libs[i]);
  }

  lemma {:induction false} HeaderSlice(libs: seq<Library>, i: nat)
    requires i < |libs|
    ensures HeaderTable(libs)[44 * i..44 * i + 44] == HeaderBytes(libs[i])
  {
    hide HeaderBytes;
    if i < |libs| - 1 {
      HeaderSlice(libs[..|libs| - 1], i);
      assert HeaderTable(libs)[44 * i..44 * i + 44] == HeaderTable(libs[..|libs| - 1])[44 * i..44 * i + 44];
    }
  }
}
