/** FNIDs, slots and trampolines of one function stay paired: what the loader
    resolves for the k-th FNID is what the k-th function's symbol calls. */
module Pairing {
  import opened Bytes
  import opened Elf
  import opened Passes
  import opened Assembly
  import opened Config
  import opened ImportLayout
  import opened NameClashes
  import opened Linking
  import opened Independence
  import opened LoadImage
  import opened Loader
  import opened RoundTrip
  import opened ImportTheorem
  import opened Machine
  import opened Instructions
  import opened Trampoline
  import GF = GeneratedFile

  /** Resolves a library's FNID to the address of a function descriptor. */
  type Resolver = (string, u32) -> u32

  /** The loader fills the first `n` slots of one import. */
  function FillOne(m: map<nat, byte>, imp: Import, resolve: Resolver, n: nat): map<nat, byte>
    requires n <= |imp.slots| && n <= |imp.fnids|
  {
    if n == 0 then m
    else Store(FillOne(m, imp, resolve, n - 1), imp.slots[n - 1], BE(resolve(imp.name, imp.fnids[n - 1]), 4))
  }

  predicate Paired(imps: seq<Import>) {
    forall i :: 0 <= i < |imps| ==> |imps[i].slots| == |imps[i].fnids|
  }

  /** The loader fills every slot of the imports, in order. */
  function Fill(m: map<nat, byte>, imps: seq<Import>, resolve: Resolver): map<nat, byte>
    requires Paired(imps)
  {
    if imps == [] then m
    else
      var imp := imps[|imps| - 1];
      FillOne(Fill(m, imps[..|imps| - 1], resolve), imp, resolve, |imp.slots|)
  }

  lemma {:induction false} FillOneFrame(m: map<nat, byte>, imp: Import, resolve: Resolver, n: nat, a: nat)
    requires n <= |imp.slots| && n <= |imp.fnids|
    requires forall k :: 0 <= k < n ==> imp.slots[k] + 4 <= a || a + 4 <= imp.slots[k]
    ensures Word(FillOne(m, imp, resolve, n), a) == Word(m, a)
  {
    hide Store, U32, BE, Read;
    if n > 0 {
      FillOneFrame(m, imp, resolve, n - 1, a);
      ReadOther(FillOne(m, imp, resolve, n - 1), imp.slots[n - 1], BE(resolve(imp.name, imp.fnids[n - 1]), 4), a, 4);
    }
  }

  /** Words apart from all slots are not written. */
  lemma {:induction false} FillFrame(m: map<nat, byte>, imps: seq<Import>, resolve: Resolver, a: nat)
    requires Paired(imps)
    requires forall i, k :: 0 <= i < |imps| && 0 <= k < |imps[i].slots| ==>
      imps[i].slots[k] + 4 <= a || a + 4 <= imps[i].slots[k]
    ensures Word(Fill(m, imps, resolve), a) == Word(m, a)
  {
    hide Word, FillOne;
    if imps != [] {
      var init, last := imps[..|imps| - 1], imps[|imps| - 1];
      FillFrame(m, init, resolve, a);
      FillOneFrame(Fill(m, init, resolve), last, resolve, |last.slots|, a);
    }
  }

  lemma {:induction false} FillOneHolds(m: map<nat, byte>, imp: Import, resolve: Resolver, n: nat, k: nat)
    requires k < n <= |imp.slots| && n <= |imp.fnids|
    requires forall j :: 0 <= j < |imp.slots| && j != k ==> imp.slots[j] + 4 <= imp.slots[k] || imp.slots[k] + 4 <= imp.slots[j]
    ensures Word(FillOne(m, imp, resolve, n), imp.slots[k]) == resolve(imp.name, imp.fnids[k])
  {
    hide Store, U32, BE, Read;
    var v := resolve(imp.name, imp.fnids[n - 1]);
    var before := FillOne(m, imp, resolve, n - 1);
    if k == n - 1 {
      ReadStored(before, imp.slots[k], BE(v, 4));
      FieldRoundTrip32(v);
    } else {
      FillOneHolds(m, imp, resolve, n - 1, k);
      ReadOther(before, imp.slots[n - 1], BE(v, 4), imp.slots[k], 4);
    }
  }

  /** No two slots share a byte. */
  ghost predicate SlotsApart(imps: seq<Import>) {
    forall i, k, j, l :: 0 <= i < |imps| && 0 <= k < |imps[i].slots| && 0 <= j < |imps| && 0 <= l < |imps[j].slots| && (i != j || k != l) ==>
      imps[i].slots[k] + 4 <= imps[j].slots[l] || imps[j].slots[l] + 4 <= imps[i].slots[k]
  }

  /** Each slot ends up holding what its own FNID resolves to. */
  lemma {:induction false} FillHolds(m: map<nat, byte>, imps: seq<Import>, resolve: Resolver, i: nat, k: nat)
    requires Paired(imps) && SlotsApart(imps) && i < |imps| && k < |imps[i].slots|
    ensures Word(Fill(m, imps, resolve), imps[i].slots[k]) == resolve(imps[i].name, imps[i].fnids[k])
  {
    hide Word, FillOne;
    var init, last := imps[..|imps| - 1], imps[|imps| - 1];
    var before := Fill(m, init, resolve);
    if i == |imps| - 1 {
      FillOneHolds(before, last, resolve, |last.slots|, k);
    } else {
      assert SlotsApart(init) by {
        forall a, b, c, d | 0 <= a < |init| && 0 <= b < |init[a].slots| && 0 <= c < |init| && 0 <= d < |init[c].slots| && (a != c || b != d)
          ensures init[a].slots[b] + 4 <= init[c].slots[d] || init[c].slots[d] + 4 <= init[a].slots[b]
        {
          assert imps[a] == init[a] && imps[c] == init[c];
        }
      }
      FillHolds(m, init, resolve, i, k);
      forall l | 0 <= l < |last.slots| ensures last.slots[l] + 4 <= imps[i].slots[k] || imps[i].slots[k] + 4 <= last.slots[l] {
        assert imps[|imps| - 1] == last;
      }
      FillOneFrame(before, last, resolve, |last.slots|, imps[i].slots[k]);
    }
  }

  // ---------- the slots of a linked file ----------

  /** The slots of library `i` lie in its own section. */
  lemma {:induction false} SlotInSection(c: Config, g: Image, seats: Placement, order: seq<string>, i: nat, k: nat)
    requires Ready(c, g, seats, order) && i < |c.libs| && k < |c.libs[i].functions|
    ensures var s, o := FstubSection(c.libs[i]), GF.File(c);
      && Placed(o, s) && s in seats.at && c.libs[i].functions[k].name + "_stub" in g.symbols
      && var a := g.symbols[c.libs[i].functions[k].name + "_stub"];
      seats.at[s].addr <= a && a + 4 <= seats.at[s].addr + |o.contents[s]|
  {
    hide Ready, GF.File, Pointer, NameLaid, FnidLaid, HasBytes, FstubSection;
    var lib, o := c.libs[i], GF.File(c);
    ReadyNames(c, g, seats, order, i);
    var base: nat :| SlotsLaid(o, lib, base);
    LabelInside(o, FstubSection(lib), base, Zeros(4 * |lib.functions|));
    BoundSymbol(c, g, seats, order, lib.functions[k].name + "_stub", Place(FstubSection(lib), base + 4 * k));
  }

  lemma {:induction false} SectionsDiffer(c: Config, g: Image, seats: Placement, order: seq<string>, i: nat, j: nat)
    requires Ready(c, g, seats, order) && i < j < |c.libs|
    ensures FstubSection(c.libs[i]) != FstubSection(c.libs[j])
  {
    hide GF.File, Linked, Separated, TableFits, NoWrap, OpdFits, Loadable, MoldierDirectives, LibNamesPlain,
      Assembles, NewSlots, BeforeTable, Less;
    LibsDistinct(c.libs);
    var a, b := FstubSection(c.libs[i]), FstubSection(c.libs[j]);
    assert a[|".data.sceFStub."|..] == c.libs[i].name && b[|".data.sceFStub."|..] == c.libs[j].name;
    assert LibNames(c.libs)[i] != LibNames(c.libs)[j];
  }

  lemma {:induction false} DistinctSections(c: Config, g: Image, seats: Placement, order: seq<string>, s: string,
      t: string)
    requires Ready(c, g, seats, order) && Placed(GF.File(c), s) && Placed(GF.File(c), t) && s != t && s in seats.at
    requires t in seats.at
    ensures seats.at[s].addr + |GF.File(c).contents[s]| <= seats.at[t].addr || seats.at[t].addr + |GF.File(c).contents[t]| <= seats.at[s].addr
  {
    hide GF.File, Separated, NoWrap, OpdFits, Loadable, MoldierDirectives, LibNamesPlain, Assembles, NewSlots,
      BeforeTable, KeyOrdered, Seated;
  }

  lemma {:induction false} FileSlotsApart(c: Config, g: Image, seats: Placement, order: seq<string>)
    requires Ready(c, g, seats, order)
    requires StubSymbols(c.libs, g.symbols)
    ensures Paired(Expectation(c.libs, g.symbols)) && SlotsApart(Expectation(c.libs, g.symbols))
  {
    hide Ready, GF.File, Pointer, Placed;
    var imps := Expectation(c.libs, g.symbols);
    forall i, k, j, l | 0 <= i < |imps| && 0 <= k < |imps[i].slots| && 0 <= j < |imps| && 0 <= l < |imps[j].slots| && (i != j || k != l)
      ensures imps[i].slots[k] + 4 <= imps[j].slots[l] || imps[j].slots[l] + 4 <= imps[i].slots[k]
    {
      if i == j {
        SlotAddresses(c, g, seats, order, i);
      } else {
        SlotInSection(c, g, seats, order, i, k);
        SlotInSection(c, g, seats, order, j, l);
        if i < j { SectionsDiffer(c, g, seats, order, i, j); } else { SectionsDiffer(c, g, seats, order, j, i); }
        DistinctSections(c, g, seats, order, FstubSection(c.libs[i]), FstubSection(c.libs[j]));
      }
    }
  }

  // ---------- the code in the patched file ----------

  /** A relocated instruction, byte by byte. */
  lemma {:induction false} LinkedWord(o: Object, offsets: map<string, int>, p: Place, j: nat)
    requires CodeWritten(o) && p in o.code && j < 4
    ensures p.sec in o.contents && p.off + 4 <= |o.contents[p.sec]|
    ensures LinkedByte(o, offsets, p.sec, p.off + j) == BE(InsnWord(Resolve(o.code[p], offsets)), 4)[j]
  {
    hide InsnWord, BE;
    assert WrittenAt(o, p, o.code[p]);
    assert (p.off + j) % 4 == j;
    assert o.contents[p.sec][p.off..p.off + 4][j] == o.contents[p.sec][p.off + j];
  }

  /** The file can be patched, and its loaded segments lie inside it. */
  ghost predicate FileLoads(g: Image, order: seq<string>) {
    && Patchable(g) && Known(g, order) && var h := PatchAll(g, order);
    && g.phoff + PHENTSIZE * h.phnum <= |h.data| && Loadable(AfterTable(g, h), |h.data|)
  }

  /** The memory the patched file is loaded into. */
  ghost function LoadedMemory(g: Image, order: seq<string>): map<nat, byte>
    requires FileLoads(g, order)
  {
    Memory(AfterTable(g, PatchAll(g, order)), PatchAll(g, order).data)
  }

  lemma {:induction false} Loads(c: Config, g: Image, seats: Placement, order: seq<string>)
    requires Ready(c, g, seats, order)
    ensures FileLoads(g, order) && OldTableFits(g)
    ensures MemoryOf(g, LoadedMemory(g, order), PatchAll(g, order).data)
  {
    hide Ready, PatchAll, Patchable, NewSlots, NoWrap, Disjoint, TableFits, MemoryOf, Loadable, AfterTable, Memory;
    ReadyRuns(c, g, seats, order);
    ReadyDisjoint(c, g, seats, order);
    PatchedPhdrs(g, order);
    PatchedMemory(c, g, seats, order, PatchAll(g, order).data);
  }

  /** A recorded instruction is fetched, relocated, from the patched file. */
  lemma {:induction false} FetchesCode(c: Config, g: Image, seats: Placement, order: seq<string>, p: Place)
    requires Ready(c, g, seats, order) && p in GF.File(c).code
    requires FileLoads(g, order) && OldTableFits(g)
    ensures p.sec in seats.at
    ensures Read(LoadedMemory(g, order), seats.at[p.sec].addr + p.off, 4)
         == BE(InsnWord(Resolve(GF.File(c).code[p], Offsets(GF.File(c), seats))), 4)
  {
    hide Ready, PatchAll, Patchable, GF.File, MemoryOf, Seated, ClearOfOpd, LinkedByte, Offsets, CodeWritten,
      Loadable, AfterTable, Memory, Read, InsnWord, Resolve, BE, LoadedMemory;
    var o, d := GF.File(c), PatchAll(g, order).data;
    Loads(c, g, seats, order);
    ReadyCode(c, g, seats, order);
    LinkedWord(o, Offsets(o, seats), p, 0);
    SeatedSection(c, g, seats, order, p.sec, p.off);
    ReadyClear(c, g, seats, order, p.sec);
    CodeNames();
    UntouchedByte(c, g, seats, order, p.sec, p.off);
    ThroughSeat(g, o, seats, p.sec, LoadedMemory(g, order), d, p.off, 4);
    var at := seats.at[p.sec].off + p.off;
    forall j | 0 <= j < 4
      ensures d[at..at + 4][j] == BE(InsnWord(Resolve(o.code[p], Offsets(o, seats))), 4)[j]
    {
      UntouchedByte(c, g, seats, order, p.sec, p.off + j);
      LinkedWord(o, Offsets(o, seats), p, j);
    }
  }

  lemma {:induction false} ReadyCode(c: Config, g: Image, seats: Placement, order: seq<string>)
    requires Ready(c, g, seats, order)
    ensures CodeWritten(GF.File(c)) && CodeOnlyIn(GF.File(c), TEXT_SECTION)
  {
    hide GF.File, Linked, Separated, TableFits, NoWrap, OpdFits, Loadable, MoldierDirectives;
    GF.CodeInFile(c);
  }

  lemma {:induction false} CodeNames()
    ensures TEXT_SECTION != HEADER_SECTION && TEXT_SECTION != PRX_SECTION
  {
    assert |TEXT_SECTION| == 13 && |HEADER_SECTION| == 9 && |PRX_SECTION| == 19;
  }

  /** How far the slot of the function is from the TOC base. */
  function SlotOffset(g: Image, seats: Placement, f: Function): int
    requires f.name + "_stub" in g.symbols
  {
    g.symbols[f.name + "_stub"] - seats.toc
  }

  lemma {:induction false} OffsetKnown(c: Config, g: Image, seats: Placement, order: seq<string>, i: nat, k: nat)
    requires Ready(c, g, seats, order) && i < |c.libs| && k < |c.libs[i].functions|
    ensures var f := c.libs[i].functions[k]; var offsets := Offsets(GF.File(c), seats);
      f.name + "_stub" in g.symbols && f.name + "_stub" in offsets
        && offsets[f.name + "_stub"] == SlotOffset(g, seats, f)
  {
    hide Ready, GF.File, Pointer, NameLaid, FnidLaid, HasBytes, FstubSection;
    var lib, o := c.libs[i], GF.File(c);
    ReadyNames(c, g, seats, order, i);
    var base: nat :| SlotsLaid(o, lib, base);
    LabelInside(o, FstubSection(lib), base, Zeros(4 * |lib.functions|));
    BoundSymbol(c, g, seats, order, lib.functions[k].name + "_stub", Place(FstubSection(lib), base + 4 * k));
  }

  /** The words of a function's trampoline are in memory at its symbol. */
  lemma {:induction false} TrampolineAt(c: Config, g: Image, seats: Placement, order: seq<string>, i: nat, k: nat)
    requires Ready(c, g, seats, order) && i < |c.libs| && k < |c.libs[i].functions|
    requires FileLoads(g, order) && OldTableFits(g)
    ensures var f := c.libs[i].functions[k];
      && f.name in g.symbols && f.name + "_stub" in g.symbols
      && StubAt(LoadedMemory(g, order), SlotOffset(g, seats, f), g.symbols[f.name])
  {
    hide Ready, GF.File, Pointer, StubInsns, PatchAll, Patchable, Loadable, AfterTable, LoadedMemory, Offsets,
      InsnWord, LinkedStub, Read, BE, Resolve, U32, SlotOffset;
    var f, o := c.libs[i].functions[k], GF.File(c);
    ReadyText(c, g, seats, order, i, k);
    ReadyConfig(c, g, seats, order);
    assert NameableFunctions(c.libs[i].functions) && IsSymbol(f.name);
    InTextSection(o, f);
    BoundSymbol(c, g, seats, order, f.name, o.labels[f.name]);
    OffsetKnown(c, g, seats, order, i, k);
    var off, a := SlotOffset(g, seats, f), g.symbols[f.name];
    forall n | 0 <= n < 16 ensures Word(LoadedMemory(g, order), a + 4 * n) as int == InsnWord(LinkedStub(off)[n]) {
      assert CodeAt(o, TEXT_SECTION, o.labels[f.name].off + 4 * n, StubInsns(f.name)[n]);
      FetchesCode(c, g, seats, order, Place(TEXT_SECTION, o.labels[f.name].off + 4 * n));
      StubResolves(f.name, Offsets(o, seats), n);
      StubFits(off, n);
      DecodesWord(LinkedStub(off)[n]);
      FieldRoundTrip32(InsnWord(LinkedStub(off)[n]));
    }
  }

  lemma {:induction false} ReadyText(c: Config, g: Image, seats: Placement, order: seq<string>, i: nat, k: nat)
    requires Ready(c, g, seats, order) && i < |c.libs| && k < |c.libs[i].functions|
    ensures StubLaid(GF.File(c), c.libs[i].functions[k])
  {
    hide GF.File, StubLaid, Linked, Separated, TableFits, NoWrap, OpdFits, Loadable, MoldierDirectives;
    GF.TrampolinePlaced(c, i, k);
  }

  // ---------- calling ----------

  /** What the program starts with: the patched file in memory, and every slot
      the loader read out of it filled. */
  ghost function FilledMemory(g: Image, order: seq<string>, imps: seq<Import>, resolve: Resolver): map<nat, byte>
    requires FileLoads(g, order) && Paired(imps)
  {
    Fill(LoadedMemory(g, order), imps, resolve)
  }

  /** Filling the slots leaves the trampolines as they are. */
  lemma {:induction false} FilledTrampoline(c: Config, g: Image, seats: Placement, order: seq<string>,
      resolve: Resolver, i: nat, k: nat)
    requires Ready(c, g, seats, order) && i < |c.libs| && k < |c.libs[i].functions|
    requires FileLoads(g, order) && OldTableFits(g) && StubSymbols(c.libs, g.symbols)
    ensures var imps, f := Expectation(c.libs, g.symbols), c.libs[i].functions[k];
      && Paired(imps) && f.name in g.symbols && f.name + "_stub" in g.symbols
      && StubAt(FilledMemory(g, order, imps, resolve), SlotOffset(g, seats, f), g.symbols[f.name])
  {
    hide Ready, GF.File, LoadedMemory, Word, LinkedStub, InsnWord, SlotOffset, Fill, SlotsApart, FileLoads, Expectation;
    FileSlotsApart(c, g, seats, order);
    TrampolineAt(c, g, seats, order, i, k);
    var imps := Expectation(c.libs, g.symbols);
    var a: nat := g.symbols[c.libs[i].functions[k].name];
    forall n: nat | n < 16
      ensures Word(FilledMemory(g, order, imps, resolve), a + 4 * n) == Word(LoadedMemory(g, order), a + 4 * n)
    {
      forall x, y | 0 <= x < |imps| && 0 <= y < |imps[x].slots|
        ensures imps[x].slots[y] + 4 <= a + 4 * n || a + 4 * n + 4 <= imps[x].slots[y]
      {
        SlotsExpected(c, g, x);
        ExpectedAt(c, g, x, y);
        SlotOffCode(c, g, seats, order, i, k, x, y);
      }
      FillFrame(LoadedMemory(g, order), imps, resolve, a + 4 * n);
    }
  }

  lemma {:induction false} SlotsExpected(c: Config, g: Image, i: nat)
    requires StubSymbols(c.libs, g.symbols) && i < |Expectation(c.libs, g.symbols)|
    ensures i < |c.libs| && |Expectation(c.libs, g.symbols)[i].slots| == |c.libs[i].functions|
  {
  }

  /** A slot and a trampoline share no byte. */
  predicate OffCode(slot: nat, code: nat) { slot + 4 <= code || code + 64 <= slot }

  /** No slot lies in a trampoline. */
  lemma {:induction false} SlotOffCode(c: Config, g: Image, seats: Placement, order: seq<string>, i: nat, k: nat,
      x: nat, y: nat)
    requires Ready(c, g, seats, order) && i < |c.libs| && k < |c.libs[i].functions|
    requires x < |c.libs| && y < |c.libs[x].functions|
    ensures var f, e := c.libs[i].functions[k].name, c.libs[x].functions[y].name + "_stub";
      f in g.symbols && e in g.symbols && OffCode(g.symbols[e], g.symbols[f])
  {
    hide Ready, GF.File, StubInsns, Pointer;
    var f, o := c.libs[i].functions[k], GF.File(c);
    ReadyText(c, g, seats, order, i, k);
    ReadyConfig(c, g, seats, order);
    assert NameableFunctions(c.libs[i].functions) && IsSymbol(f.name);
    BoundSymbol(c, g, seats, order, f.name, o.labels[f.name]);
    SlotInSection(c, g, seats, order, x, y);
    assert FstubSection(c.libs[x])[1] == 'd' && TEXT_SECTION[1] == 's';
    DistinctSections(c, g, seats, order, FstubSection(c.libs[x]), TEXT_SECTION);
  }

  /** In every memory in which the trampoline and its slot are still as loaded and
      filled, the call of `s` is entered at what `desc` describes, and returned
      from when the callee is obedient and leaves the trampoline alone. */
  ghost predicate Served(filled: map<nat, byte>, slot: nat, s: State, desc: u32, t: State) {
    SameBytes(s.mem, filled, s.pc, 64) && SameBytes(s.mem, filled, slot, 4) ==>
      Enters(s, desc) && (Obeys(Steps(s, 11), t) && SameBytes(t.mem, filled, s.pc, 64) ==> Returns(s, t))
  }

  /** End to end: after the loader has filled the slots it read out of the
      patched file, fetching and executing the words in memory at the symbol of
      the k-th function of library i enters the code, under the TOC, that the
      k-th FNID of that library resolved to, and returns. */
  lemma {:induction false} CallReachesItsFunction(c: Config, g: Image, seats: Placement, order: seq<string>,
      resolve: Resolver, s: State, t: State, i: nat, k: nat)
    requires Ready(c, g, seats, order) && U64(g.data[32..40]) == g.phoff
    requires i < |c.libs| && k < |c.libs[i].functions|
    requires var f := c.libs[i].functions[k];
      && f.name in g.symbols && f.name + "_stub" in g.symbols && s.pc == g.symbols[f.name] && s.gpr[2] == seats.toc
      && CanCall(s, SlotOffset(g, seats, f), resolve(c.libs[i].name, f.fnid))
    ensures FileLoads(g, order)
    ensures var found, f := Imports(PatchAll(g, order).data), c.libs[i].functions[k];
      && found.Some? && Paired(found.value)
      && Served(FilledMemory(g, order, found.value, resolve), g.symbols[f.name + "_stub"], s,
                resolve(c.libs[i].name, f.fnid), t)
  {
    hide Ready, GF.File, PatchAll, Patchable, Imports, Fill, Read, Steps, CanCall, StubAt, Expected, SlotsApart,
      Obeys, Loadable, AfterTable, LoadedMemory, StubSymbols, SlotOffset, Enters, Returns, SameBytes, U32;
    ImportRoundTrip(c, g, seats, order);
    Loads(c, g, seats, order);
    FileSlotsApart(c, g, seats, order);
    FilledTrampoline(c, g, seats, order, resolve, i, k);
    var imps, f := Expectation(c.libs, g.symbols), c.libs[i].functions[k];
    var desc, filled := resolve(c.libs[i].name, f.fnid), FilledMemory(g, order, imps, resolve);
    ExpectedAt(c, g, i, k);
    FillHolds(LoadedMemory(g, order), imps, resolve, i, k);
    if SameBytes(s.mem, filled, s.pc, 64) && SameBytes(s.mem, filled, g.symbols[f.name + "_stub"], 4) {
      SameRead(s.mem, filled, g.symbols[f.name + "_stub"], 4);
      SlotHolds(g, seats, f, s, desc);
      SameStub(s.mem, filled, SlotOffset(g, seats, f), s.pc);
      if SameBytes(t.mem, filled, s.pc, 64) { SameStub(t.mem, filled, SlotOffset(g, seats, f), s.pc); }
      Transparent(s, SlotOffset(g, seats, f), desc, t);
    }
  }

  lemma {:induction false} SameStub(m: map<nat, byte>, p: map<nat, byte>, off: int, base: nat)
    requires SameBytes(m, p, base, 64) && StubAt(p, off, base)
    ensures StubAt(m, off, base)
  {
    hide ByteAt, Read, U32, InsnWord, LinkedStub;
    forall k | 0 <= k < 16 ensures Word(m, base + 4 * k) == Word(p, base + 4 * k) {
      SameRead(m, p, base + 4 * k, 4);
    }
  }

  lemma {:induction false} ExpectedAt(c: Config, g: Image, i: nat, k: nat)
    requires StubSymbols(c.libs, g.symbols) && i < |c.libs| && k < |c.libs[i].functions|
    ensures var e, f := Expectation(c.libs, g.symbols)[i], c.libs[i].functions[k];
      && e.name == c.libs[i].name && f.name + "_stub" in g.symbols
      && k < |e.slots| == |e.fnids| && e.slots[k] == g.symbols[f.name + "_stub"] && e.fnids[k] == f.fnid
  {
  }

  lemma {:induction false} SlotHolds(g: Image, seats: Placement, f: Function, s: State, desc: u32)
    requires f.name + "_stub" in g.symbols && s.gpr[2] == seats.toc
    requires CanCall(s, SlotOffset(g, seats, f), desc) && Word(s.mem, g.symbols[f.name + "_stub"]) == desc
    ensures CallOk(s, SlotOffset(g, seats, f), desc)
  {
    hide Word, OffStack;
  }
}
