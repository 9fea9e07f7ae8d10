/** Calls in a linked and patched program reach the functions the loader found. */
module Calls {
  import opened Bytes
  import opened Wrappers
  import opened Passes
  import opened LoadImage
  import opened Assembly
  import opened Config
  import opened Linker
  import opened Loader
  import opened Machine
  import opened Trampoline
  import opened EndToEnd
  import opened Pairing
  import opened RoundTrip
  import opened NameClashes
  import opened ImportTheorem
  import GF = GeneratedFile

  /** The call of `f` from `s`, in a program linked by `plan`: to the function's
      symbol, under the program's TOC, with a slot within reach. */
  ghost predicate IsCall(o: Object, plan: Plan, f: Function, s: State, desc: u32) {
    && f.name in o.labels && f.name + "_stub" in o.labels
    && s.pc == Value(o, plan, f.name) && s.gpr[2] == plan.toc
    && CanCall(s, Value(o, plan, f.name + "_stub") - plan.toc, desc)
  }

  /** Every function has both labels. */
  lemma {:induction false} FunctionLabels(c: Config, i: nat, k: nat)
    requires Assembles(MoldierDirectives(c)) && i < |c.libs| && k < |c.libs[i].functions|
    ensures var f := c.libs[i].functions[k].name; f in GF.File(c).labels && f + "_stub" in GF.File(c).labels && f != ""
  {
    hide MoldierDirectives, GF.File, Assembles, IsSymbol, StubInsns;
    GF.TrampolinePlaced(c, i, k);
    SlotLabel(c, i, k);
    NamedFunction(c, i, k);
  }

  lemma {:induction false} NamedFunction(c: Config, i: nat, k: nat)
    requires Assembles(MoldierDirectives(c)) && i < |c.libs| && k < |c.libs[i].functions|
    ensures c.libs[i].functions[k].name != ""
  {
    hide MoldierDirectives, Labels, InRange;
    LabelsSymbols(c);
    assert NameableFunctions(c.libs[i].functions) && IsSymbol(c.libs[i].functions[k].name);
  }

  /** In the memory the patched file is loaded into, after the loader has filled
      the slots it decoded, which are the configured ones, a call enters the code, under the TOC, that the k-th FNID of the
      library resolved to, and returns. */
  lemma {:induction false} LinkedCallReaches(c: Config, plan: Plan, prog: Program, order: seq<string>,
      resolve: Resolver, s: State, t: State, i: nat, k: nat)
    requires Generated(c) && Linker.Covers(GF.File(c), plan) && Compatible(GF.File(c), plan, prog)
    requires Enumerates(order, Output(GF.File(c), plan, prog).symbols)
    requires i < |c.libs| && k < |c.libs[i].functions|
    requires var f := c.libs[i].functions[k]; IsCall(GF.File(c), plan, f, s, resolve(c.libs[i].name, f.fnid))
    ensures SlotLabels(c) && Paired(AskedImports(c, plan))
    ensures var g, f := Output(GF.File(c), plan, prog), c.libs[i].functions[k];
      && FileLoads(g, order) && Imports(PatchAll(g, order).data) == Some(AskedImports(c, plan))
      && f.name + "_stub" in GF.File(c).labels
      && Served(FilledMemory(g, order, AskedImports(c, plan), resolve), Value(GF.File(c), plan, f.name + "_stub"), s,
                resolve(c.libs[i].name, f.fnid), t)
  {
    hide GF.File, Output, Compatible, Linker.Covers, Generated, Enumerates, PatchAll, Patchable, Imports, FilledMemory, Steps,
      CanCall, Ready, AskedImports, Loadable, AfterTable, LoadedMemory, Seats, Word, Expectation, StubSymbols, Served;
    var o, g, f := GF.File(c), Output(GF.File(c), plan, prog), c.libs[i].functions[k];
    LinkedIsReady(c, plan, prog, order);
    OutputHeader(o, plan, prog);
    CallSymbols(c, plan, prog, i, k);
    assert SlotOffset(g, Seats(o, plan, prog), f) == Value(o, plan, f.name + "_stub") - plan.toc;
    CallReachesItsFunction(c, g, Seats(o, plan, prog), order, resolve, s, t, i, k);
    ImportRoundTrip(c, g, Seats(o, plan, prog), order);
    ExpectedAsked(c, plan, prog, order);
  }

  /** The two symbols of a function have the linker's values. */
  lemma {:induction false} CallSymbols(c: Config, plan: Plan, prog: Program, i: nat, k: nat)
    requires Generated(c) && Linker.Covers(GF.File(c), plan) && Compatible(GF.File(c), plan, prog)
    requires i < |c.libs| && k < |c.libs[i].functions|
    ensures var o, g, f := GF.File(c), Output(GF.File(c), plan, prog), c.libs[i].functions[k].name;
      && f in o.labels && f + "_stub" in o.labels && f in g.symbols && f + "_stub" in g.symbols
      && g.symbols[f] == Value(o, plan, f) && g.symbols[f + "_stub"] == Value(o, plan, f + "_stub")
  {
    hide GF.File, Output, Compatible, Linker.Covers, MoldierDirectives, Assembles, Value, KeyOrdered;
    var f := c.libs[i].functions[k].name;
    FunctionLabels(c, i, k);
    assert f + "_stub" != "";
    SymbolSource(GF.File(c), plan, prog, f);
    SymbolSource(GF.File(c), plan, prog, f + "_stub");
  }
}
