/** The process and PRX parameter blocks in the linked and patched file. */
module Parameters {
  import opened Bytes
  import opened Wrappers
  import opened Elf
  import opened Passes
  import opened Locality
  import opened Independence
  import opened LoadImage
  import opened Assembly
  import opened Config
  import opened Linking
  import opened Linker
  import opened RoundTrip
  import opened EndToEnd
  import opened PatchedBytes
  import GF = GeneratedFile
  import Rerun
  import SecondRun

  /** The PRX parameters after patching: as generated, with the bounds of the export
      and the import table filled in. */
  predicate PrxFilled(b: seq<byte>, sections: map<string, Section>) {
    |b| == 40 && GF.WordsAre(b, 0, [0x28, 0x1b434cec, 2, 0])
    && BoundsAt(b, 16, sections, ".lib.ent") && BoundsAt(b, 24, sections, ".lib.stub")
    && U16(b[32..34]) == 0x0101 && U16(b[34..36]) == 0 && GF.WordsAre(b, 36, [0])
  }

  /** Outside the four bounds the block is as assembled. */
  lemma {:induction false} PrxByte(c: Config, g: Image, seats: Placement, order: seq<string>, k: nat)
    requires Ready(c, g, seats, order) && k < 40 && !(16 <= k < 32)
    ensures Patchable(g) && PRX_SECTION in g.sections && PRX_SECTION in GF.File(c).contents
    ensures |GF.File(c).contents[PRX_SECTION]| == 40
    ensures var o := g.sections[PRX_SECTION].offset;
      o + 40 <= |PatchAll(g, order).data| && PatchAll(g, order).data[o + k] == GF.File(c).contents[PRX_SECTION][k]
  {
    hide Ready, PatchAll, Patchable, Region, GF.File, Disjoint, InRangeOf, NewSlots, Linked, Separated, NoWrap,
      TableFits, Seated, LinkedByte, Offsets;
    ReadyRuns(c, g, seats, order);
    ReadyDisjoint(c, g, seats, order);
    PrxTable(c, g, seats, order);
    SeatedSection(c, g, seats, order, PRX_SECTION, k);
    var i: nat := g.sections[PRX_SECTION].offset + k;
    PrxAlone(c, g, seats, order, k);
    assert |PRX_SECTION| == 19 && |TEXT_SECTION| == 13;
    Rerun.UnownedByte(g, order, i);
    PatchedPhdrs(g, order);
  }

  lemma {:induction false} PrxAlone(c: Config, g: Image, seats: Placement, order: seq<string>, k: nat)
    requires Ready(c, g, seats, order) && k < 40 && !(16 <= k < 32)
    ensures PRX_SECTION in g.sections && CanRunAll(g) && Known(g, order)
    ensures var i: nat := g.sections[PRX_SECTION].offset + k; forall p: Pass :: !Region(p, g, order, i)
  {
    hide Ready, Disjoint, NewSlots, TableFits, OpdByte, StubHeaders, StubField, Slots, OpdDone, OpdBase, Linked,
      Separated, NoWrap, Loadable, Assembles, MoldierDirectives, GF.File;
    ReadyRuns(c, g, seats, order);
    PrxTable(c, g, seats, order);
    var i: nat := g.sections[PRX_SECTION].offset + k;
    forall p: Pass ensures !Region(p, g, order, i) {
      RegionRange(c, g, seats, order, p, i);
      if Region(p, g, order, i) { RangesDisjoint(c, g, seats, order, p, FixPrxParams, i); }
    }
  }

  /** Both blocks in every patched image. */
  lemma {:induction false} PatchedBlocks(c: Config, g: Image, seats: Placement, order: seq<string>)
    requires Ready(c, g, seats, order)
    ensures Patchable(g) && Known(g, order) && ".sys_proc_param" in seats.at && PRX_SECTION in g.sections
    ensures var d, o := PatchAll(g, order).data, seats.at[".sys_proc_param"].off;
      o + 32 <= |d| && GF.ProcessBlock(d[o..o + 32], c)
    ensures var d, x := PatchAll(g, order).data, g.sections[PRX_SECTION].offset;
      x + 40 <= |d| && PrxFilled(d[x..x + 40], g.sections)
  {
    hide Ready, PatchAll, Patchable, GF.File, Disjoint, NewSlots, Linked, Separated, NoWrap, TableFits, LinkedByte,
      Offsets, GF.ProcessBlock, PrxFilled, Assembles, MoldierDirectives, BoundsAt, GF.PrxBlock;
    ReadyRuns(c, g, seats, order);
    ReadyDisjoint(c, g, seats, order);
    GF.ParamsInFile(c);
    BlockSize(GF.File(c).contents[".sys_proc_param"], c);
    ProcessBytes(c, g, seats, order);
    PrxTable(c, g, seats, order);
    PrxByte(c, g, seats, order, 0);
    var b, d := GF.File(c).contents[PRX_SECTION], PatchAll(g, order).data;
    var x: nat := g.sections[PRX_SECTION].offset;
    forall k | 0 <= k < 40 && !(16 <= k < 32) ensures d[x + k] == b[k] { PrxByte(c, g, seats, order, k); }
    PrxBounds4(c, g, seats, order);
    FillPrx(b, d, x, g.sections);
  }

  lemma {:induction false} BlockSize(b: seq<byte>, c: Config)
    requires GF.ProcessBlock(b, c)
    ensures |b| == 32
  {
    hide GF.WordsAre;
  }

  lemma {:induction false} ProcessBytes(c: Config, g: Image, seats: Placement, order: seq<string>)
    requires Ready(c, g, seats, order)
    requires ".sys_proc_param" in GF.File(c).contents && |GF.File(c).contents[".sys_proc_param"]| == 32
    ensures Patchable(g) && Known(g, order) && ".sys_proc_param" in seats.at
    ensures var d, o := PatchAll(g, order).data, seats.at[".sys_proc_param"].off;
      o + 32 <= |d| && d[o..o + 32] == GF.File(c).contents[".sys_proc_param"]
  {
    hide Ready, PatchAll, Patchable, GF.File, LinkedByte, Offsets, Linked, Separated, Seated, CanRunAll, NoWrap,
      Loadable, NewSlots, Assembles, MoldierDirectives, OldTableFits;
    var s := ".sys_proc_param";
    assert |s| == 15 && |PRX_SECTION| == 19 && |HEADER_SECTION| == 9 && |TEXT_SECTION| == 13;
    ReadyRuns(c, g, seats, order);
    UntouchedByte(c, g, seats, order, s, 31);
    var d, o, b := PatchAll(g, order).data, seats.at[s].off, GF.File(c).contents[s];
    forall k | 0 <= k < 32 ensures d[o..o + 32][k] == b[k] {
      UntouchedByte(c, g, seats, order, s, k);
      PlainByte(c, Offsets(GF.File(c), seats), s, k);
    }
  }

  lemma {:induction false} PrxBounds4(c: Config, g: Image, seats: Placement, order: seq<string>)
    requires Ready(c, g, seats, order)
    ensures Patchable(g) && Known(g, order) && PRX_SECTION in g.sections && ParamsAre(g, PatchAll(g, order).data)
  {
    hide Ready, PatchAll, Patchable, Disjoint, NoWrap, TableFits, BoundsAt, PrxParams, Linked, Separated, NewSlots,
      Loadable, Assembles, MoldierDirectives, GF.File;
    ReadyRuns(c, g, seats, order);
    ReadyDisjoint(c, g, seats, order);
    PrxTable(c, g, seats, order);
    var x: nat := g.sections[PRX_SECTION].offset;
    ParamBounds(g);
    PatchedPhdrs(g, order);
    var r, w := PatchAll(g, order).data, PrxParams(g).data;
    forall i | x + 16 <= i < x + 32 ensures r[i] == w[i] { PipelineAt(g, order, FixPrxParams, i); }
    SameBounds(r, w, x + 16, g.sections, ".lib.ent");
    SameBounds(r, w, x + 24, g.sections, ".lib.stub");
  }

  lemma {:induction false} FillPrx(b: seq<byte>, d: seq<byte>, x: nat, sections: map<string, Section>)
    requires GF.PrxBlock(b) && x + 40 <= |d|
    requires forall k :: 0 <= k < 40 && !(16 <= k < 32) ==> d[x + k] == b[k]
    requires BoundsAt(d, x + 16, sections, ".lib.ent") && BoundsAt(d, x + 24, sections, ".lib.stub")
    ensures PrxFilled(d[x..x + 40], sections)
  {
    hide U32, U16;
    var r := d[x..x + 40];
    forall k | 0 <= k < 40 && !(16 <= k < 32) ensures r[k] == b[k] { assert d[x + k] == b[k]; }
    var vs: seq<nat>, ws: seq<nat> := [0x28, 0x1b434cec, 2, 0], [0x28, 0x1b434cec, 2, 0, 0, 0, 0, 0];
    forall k | 0 <= k < 4 ensures U32(r[0 + 4 * k..0 + 4 * k + 4]) as int == vs[k] {
      assert r[0 + 4 * k..0 + 4 * k + 4] == b[0 + 4 * k..0 + 4 * k + 4];
      assert U32(b[0 + 4 * k..0 + 4 * k + 4]) as int == ws[k];
    }
    assert r[32..34] == b[32..34] && r[34..36] == b[34..36] && r[36 + 0..36 + 0 + 4] == b[36 + 0..36 + 0 + 4];
    SliceOfSlice(d, x, x + 40, 16, 20); SliceOfSlice(d, x, x + 40, 20, 24);
    SliceOfSlice(d, x, x + 40, 24, 28); SliceOfSlice(d, x, x + 40, 28, 32);
  }

  /** Both blocks in every linked and patched file, each where its section header
      says, which is where the injected program headers point. */
  lemma {:induction false} LinkedBlocks(c: Config, plan: Plan, prog: Program, order: seq<string>)
    requires Generated(c) && Linker.Covers(GF.File(c), plan) && Compatible(GF.File(c), plan, prog)
    requires Enumerates(order, Output(GF.File(c), plan, prog).symbols)
    ensures var g := Output(GF.File(c), plan, prog);
      && Patchable(g) && Known(g, order) && ".sys_proc_param" in g.sections && ".sys_proc_prx_param" in g.sections
      && var d, o, x := PatchAll(g, order).data, g.sections[".sys_proc_param"].offset, g.sections[".sys_proc_prx_param"].offset;
      && o + 32 <= |d| && GF.ProcessBlock(d[o..o + 32], c)
      && x + 40 <= |d| && PrxFilled(d[x..x + 40], g.sections)
  {
    hide GF.File, Output, Compatible, Linker.Covers, Assembles, MoldierDirectives, Seats, Ready, PatchAll, Patchable,
      GF.ProcessBlock, PrxFilled, GF.PrxBlock, Enumerates;
    var o := GF.File(c);
    LinkedIsReady(c, plan, prog, order);
    PatchedBlocks(c, Output(o, plan, prog), Seats(o, plan, prog), order);
    GF.ParamsInFile(c);
    ProcessPlanned(c, plan);
    OutputDescribed(o, plan, prog, ".sys_proc_param");
  }

  lemma {:induction false} ProcessPlanned(c: Config, plan: Plan)
    requires Linker.Covers(GF.File(c), plan)
    requires ".sys_proc_param" in GF.File(c).contents && GF.ProcessBlock(GF.File(c).contents[".sys_proc_param"], c)
    ensures ".sys_proc_param" in plan.names
  {
    hide GF.File, GF.WordsAre;
    assert Placed(GF.File(c), ".sys_proc_param");
  }

  /** On every linked file the passes keep apart, so what they leave byte by byte
      holds of its patched file. */
  lemma {:induction false} LinkedPassesApart(c: Config, plan: Plan, prog: Program, order: seq<string>)
    requires Generated(c) && Linker.Covers(GF.File(c), plan) && Compatible(GF.File(c), plan, prog)
    requires Enumerates(order, Output(GF.File(c), plan, prog).symbols)
    ensures PassesApart(LinkedFile(c, plan, prog), order)
  {
    hide GF.File, Output, Compatible, Linker.Covers, Generated, LinkedFile, Indexable, Parse, Disjoint, NoWrap, Patchable,
      Rerun.MetaUntouched, CanRunAll;
    SecondRun.LinkedIsWellFormed(c, plan, prog, order);
    PipelineIsOnePatch(Output(GF.File(c), plan, prog), order);
  }
}
