/** The five passes are one simultaneous patch: on an image whose pass regions
    do not overlap, every order of running them gives the same bytes. */
module Independence {
  import opened Bytes
  import opened Wrappers
  import opened Lists
  import opened Elf
  import opened Passes
  import opened ProgramHeaders
  import opened Locality

  datatype Pass = FixOsAbi | FixPhdrs | FixStubs | FixOpd | FixPrxParams

  predicate Known(g: Image, order: seq<string>) {
    forall k :: k in order ==> k in g.symbols
  }

  predicate CanRun(p: Pass, g: Image) {
    match p
    case FixOsAbi => |g.data| >= 64
    case FixPhdrs => |g.data| >= 64 && TableFits(g)
    case FixPrxParams => PrxParamsFit(g)
    case _ => true
  }

  function Run(p: Pass, g: Image, order: seq<string>): Image
    requires CanRun(p, g) && Known(g, order)
  {
    match p
    case FixOsAbi => OsAbi(g)
    case FixPhdrs => Phdrs(g)
    case FixStubs => LibStubs(g, order)
    case FixOpd => Opd(g)
    case FixPrxParams => PrxParams(g)
  }

  /** The bytes a pass looks at or may change. */
  ghost predicate Region(p: Pass, g: Image, order: seq<string>, i: nat)
    requires CanRun(p, g) && Known(g, order)
  {
    match p
    case FixOsAbi => i == 7
    case FixPhdrs => PhdrBytes(g, i)
    case FixStubs => HasStubs(g) && StubField(g.sections[LIB_STUB], |g.data|, StubHeaders(g, order), i)
    case FixOpd => OpdByte(g, i)
    case FixPrxParams =>
      HasPrxParams(g) && var o := g.sections[".sys_proc_prx_param"].offset; o + 16 <= i < o + 32
  }

  predicate CanRunAll(g: Image) {
    |g.data| >= 64 && TableFits(g) && PrxParamsFit(g)
  }

  /** No byte belongs to two passes. */
  ghost predicate Disjoint(g: Image, order: seq<string>)
    requires CanRunAll(g) && Known(g, order)
  {
    forall p: Pass, q: Pass, i: nat {:trigger Region(p, g, order, i), Region(q, g, order, i)} ::
      Region(p, g, order, i) && Region(q, g, order, i) ==> p == q
  }

  /** `h` is `g` as seen by pass `p`: same metadata, same bytes in its region. */
  ghost predicate Looks(p: Pass, g: Image, h: Image, order: seq<string>)
    requires CanRun(p, g) && Known(g, order)
  {
    && h == g.(data := h.data, phnum := h.phnum) && |h.data| == |g.data|
    && (p == FixPhdrs ==> h.phnum == g.phnum)
    && forall i :: 0 <= i < |g.data| && Region(p, g, order, i) ==> h.data[i] == g.data[i]
  }

  // ---------- a pass depends on its region and changes nothing else ----------

  lemma {:induction false} TableLooks(g: Image, h: Image, order: seq<string>)
    requires CanRun(FixPhdrs, g) && Known(g, order) && Looks(FixPhdrs, g, h, order)
    ensures CanRun(FixPhdrs, h) && NewSlots(h) == NewSlots(g)
  {
    hide Kept, Injected;
    assert forall i :: g.phoff <= i < g.phoff + PHENTSIZE * g.phnum ==> Region(FixPhdrs, g, order, i);
    KeptLocal(g.data, h.data, g.phoff, g.phnum);
  }

  lemma {:induction false} LooksRegion(p: Pass, g: Image, h: Image, order: seq<string>)
    requires CanRun(p, g) && Known(g, order) && Looks(p, g, h, order)
    ensures CanRun(p, h)
    ensures forall i: nat :: Region(p, h, order, i) <==> Region(p, g, order, i)
  {
    hide Kept, Injected, SortByAddr, Collect, StubField, NewSlots;
    if p == FixPhdrs { TableLooks(g, h, order); }
  }

  lemma {:induction false} RunFrame(p: Pass, g: Image, order: seq<string>)
    requires CanRun(p, g) && Known(g, order)
    ensures forall i :: 0 <= i < |g.data| && !Region(p, g, order, i) ==> Run(p, g, order).data[i] == g.data[i]
  {
    match p
    case FixOsAbi =>
    case FixPhdrs => hide Phdrs, NewSlots; PhdrFrame(g);
    case FixStubs =>
      hide BindAll, SortByAddr, Collect, StubField;
      if HasStubs(g) { BindAllFrame(g.symbols, g.sections[LIB_STUB], StubHeaders(g, order), g.data); }
    case FixOpd => hide OpdUpTo, Fitting; if OpdCount(g) > 0 { OpdUpToFrame(g, OpdDone(g), g.data); }
    case FixPrxParams => hide PrxBounds;
  }

  lemma {:induction false} RunLocal(p: Pass, g: Image, h: Image, order: seq<string>)
    requires CanRun(p, g) && Known(g, order) && Looks(p, g, h, order)
    ensures CanRun(p, h)
    ensures forall i :: 0 <= i < |g.data| && Region(p, g, order, i)
              ==> Run(p, h, order).data[i] == Run(p, g, order).data[i]
  {
    LooksRegion(p, g, h, order);
    match p
    case FixOsAbi =>
    case FixPhdrs => PhdrsLocal(g, h, order);
    case FixStubs =>
      hide BindAll, SortByAddr, Collect, StubField;
      if HasStubs(g) { BindAllAgrees(g.symbols, g.sections[LIB_STUB], StubHeaders(g, order), g.data, h.data); }
    case FixOpd => OpdLocal(g, h, order);
    case FixPrxParams => hide PrxBounds;
  }

  lemma {:induction false} PhdrsLocal(g: Image, h: Image, order: seq<string>)
    requires CanRun(FixPhdrs, g) && Known(g, order) && Looks(FixPhdrs, g, h, order)
    ensures CanRun(FixPhdrs, h)
    ensures forall i :: 0 <= i < |g.data| && PhdrBytes(g, i) ==> Phdrs(h).data[i] == Phdrs(g).data[i]
  {
    hide Flat, Zeros, BE, NewSlots;
    TableLooks(g, h, order);
  }

  lemma {:induction false} OpdSameMeta(g: Image, h: Image, n: nat, d: seq<byte>)
    requires h == g.(data := h.data, phnum := h.phnum)
    requires n == 0 || (".opd" in g.sections && OpdBase(g) + DESCRIPTOR_SIZE * n <= |d|)
    ensures OpdUpTo(h, n, d) == OpdUpTo(g, n, d)
  {
    hide Put, BE, FuncAt, TocAt;
    if n > 0 { OpdSameMeta(g, h, n - 1, d); }
  }

  lemma {:induction false} OpdLocal(g: Image, h: Image, order: seq<string>)
    requires Known(g, order) && Looks(FixOpd, g, h, order)
    ensures forall i :: 0 <= i < |g.data| && OpdByte(g, i) ==> Opd(h).data[i] == Opd(g).data[i]
  {
    hide OpdUpTo, Fitting;
    if OpdCount(g) > 0 {
      OpdUpToAgrees(g, OpdDone(g), g.data, h.data);
      OpdSameMeta(g, h, OpdDone(g), h.data);
      assert forall i :: OpdByte(g, i) ==> Region(FixOpd, g, order, i);
    }
  }

  // ---------- any sequence of passes ----------

  /** Runs the passes of `ps` from left to right; a pass that cannot run would
      stop the program, which `RunsAsOne` rules out. */
  function RunAll(ps: seq<Pass>, g: Image, order: seq<string>): Option<Image>
    requires Known(g, order)
  {
    if ps == [] then Some(g)
    else
      var before := RunAll(ps[..|ps| - 1], g, order);
      var p := ps[|ps| - 1];
      if before.Some? && CanRun(p, before.value) && Known(before.value, order)
      then Some(Run(p, before.value, order)) else None
  }

  /** The single patch that `ps` amounts to: each byte comes from the pass that
      owns it, run alone on the original image, or is unchanged. */
  ghost predicate PatchedBy(ps: seq<Pass>, g: Image, order: seq<string>, h: Image)
    requires CanRunAll(g) && Known(g, order)
  {
    && h == g.(data := h.data, phnum := if FixPhdrs in ps then NewPhnum(g) else g.phnum)
    && |h.data| == |g.data|
    && (forall p, i {:trigger Region(p, g, order, i)} ::
          p in ps && 0 <= i < |g.data| && Region(p, g, order, i) ==> h.data[i] == Run(p, g, order).data[i])
    && (forall i :: 0 <= i < |g.data| && (forall p :: p in ps ==> !Region(p, g, order, i)) ==> h.data[i] == g.data[i])
  }

  /** Running any selection of distinct passes, in any order, is one
      simultaneous patch of the original image. */
  lemma {:induction false} RunsAsOne(ps: seq<Pass>, g: Image, order: seq<string>)
    requires CanRunAll(g) && Known(g, order) && Disjoint(g, order) && NoDup(ps)
    ensures RunAll(ps, g, order).Some? && PatchedBy(ps, g, order, RunAll(ps, g, order).value)
  {
    if ps != [] {
      var rest, p := ps[..|ps| - 1], ps[|ps| - 1];
      RunsAsOne(rest, g, order);
      RunOneMore(rest, p, g, order, RunAll(rest, g, order).value);
      assert rest + [p] == ps;
    }
  }

  lemma {:induction false} RunOneMore(rest: seq<Pass>, p: Pass, g: Image, order: seq<string>, m: Image)
    requires CanRunAll(g) && Known(g, order) && Disjoint(g, order) && p !in rest
    requires PatchedBy(rest, g, order, m)
    ensures CanRun(p, m) && Known(m, order) && PatchedBy(rest + [p], g, order, Run(p, m, order))
  {
    hide Run, Region;
    assert Looks(p, g, m, order);
    RunLocal(p, g, m, order);
    LooksRegion(p, g, m, order);
    RunFrame(p, m, order);
    RunShape(p, g, m, order);
  }

  lemma {:induction false} RunShape(p: Pass, g: Image, m: Image, order: seq<string>)
    requires CanRun(p, g) && Known(g, order) && Looks(p, g, m, order) && CanRun(p, m)
    ensures var h := Run(p, m, order);
      h == m.(data := h.data, phnum := if p == FixPhdrs then NewPhnum(g) else m.phnum) && |h.data| == |m.data|
  {
    hide OsAbi, Phdrs, LibStubs, Opd, PrxParams, NewSlots;
    if p == FixPhdrs { TableLooks(g, m, order); }
  }

  /** Order does not matter. */
  lemma {:induction false} OrderIrrelevant(ps: seq<Pass>, qs: seq<Pass>, g: Image, order: seq<string>)
    requires CanRunAll(g) && Known(g, order) && Disjoint(g, order) && NoDup(ps) && NoDup(qs)
    requires forall p :: p in ps <==> p in qs
    ensures RunAll(ps, g, order) == RunAll(qs, g, order)
  {
    hide Region, Run, RunAll;
    RunsAsOne(ps, g, order);
    RunsAsOne(qs, g, order);
    var a, b := RunAll(ps, g, order).value, RunAll(qs, g, order).value;
    forall i | 0 <= i < |g.data| ensures a.data[i] == b.data[i] {
      if p :| p in ps && Region(p, g, order, i) { assert p in qs; }
    }
    assert a.data == b.data;
  }

  const PIPELINE: seq<Pass> := [FixOsAbi, FixPhdrs, FixStubs, FixOpd, FixPrxParams]

  /** The sequence `patch_elf_file` runs is the simultaneous patch of all five. */
  lemma {:induction false} PipelineIsOnePatch(g: Image, order: seq<string>)
    requires CanRunAll(g) && Known(g, order) && Disjoint(g, order) && NoWrap(g)
    ensures Patchable(g) && PatchedBy(PIPELINE, g, order, PatchAll(g, order))
    ensures RunAll(PIPELINE, g, order) == Some(PatchAll(g, order))
  {
    hide OsAbi, Phdrs, LibStubs, Opd, PrxParams, Region, TableFits, PatchedBy, PrxParamsFit, RunAll, Known,
      StubSumsFit, OpdSumsFit, BoundSumsFit;
    RunsAsOne(PIPELINE, g, order);
    assert PIPELINE == [FixOsAbi, FixPhdrs, FixStubs, FixOpd] + [FixPrxParams];
    Unroll([FixOsAbi, FixPhdrs, FixStubs, FixOpd], FixPrxParams, g, order);
    assert [FixOsAbi, FixPhdrs, FixStubs, FixOpd] == [FixOsAbi, FixPhdrs, FixStubs] + [FixOpd];
    Unroll([FixOsAbi, FixPhdrs, FixStubs], FixOpd, g, order);
    assert [FixOsAbi, FixPhdrs, FixStubs] == [FixOsAbi, FixPhdrs] + [FixStubs];
    Unroll([FixOsAbi, FixPhdrs], FixStubs, g, order);
    assert [FixOsAbi, FixPhdrs] == [FixOsAbi] + [FixPhdrs];
    Unroll([FixOsAbi], FixPhdrs, g, order);
    assert [FixOsAbi] == [] + [FixOsAbi];
    Unroll([], FixOsAbi, g, order);
    RunNone(g, order);
  }

  /** A byte of a pass's region is what that pass alone makes of it. */
  lemma {:induction false} PipelineAt(g: Image, order: seq<string>, p: Pass, i: nat)
    requires CanRunAll(g) && Known(g, order) && Disjoint(g, order) && NoWrap(g)
    requires i < |g.data| && Region(p, g, order, i)
    ensures Patchable(g)
    ensures var h := PatchAll(g, order);
      h == g.(data := h.data, phnum := NewPhnum(g)) && |h.data| == |g.data| && h.data[i] == Run(p, g, order).data[i]
  {
    hide Region, Run, PatchAll, Patchable, CanRun, NewPhnum;
    PipelineIsOnePatch(g, order);
    assert p in PIPELINE;
    assert FixPhdrs in PIPELINE;
  }

  lemma {:induction false} RunNone(g: Image, order: seq<string>)
    requires Known(g, order)
    ensures RunAll([], g, order) == Some(g)
  {
  }

  lemma {:induction false} Unroll(ps: seq<Pass>, p: Pass, g: Image, order: seq<string>)
    requires Known(g, order) && RunAll(ps + [p], g, order).Some?
    ensures RunAll(ps, g, order).Some?
    ensures var m := RunAll(ps, g, order).value;
      CanRun(p, m) && Known(m, order) && RunAll(ps + [p], g, order) == Some(Run(p, m, order))
  {
    hide CanRun, Run;
    assert (ps + [p])[..|ps|] == ps;
  }
}
