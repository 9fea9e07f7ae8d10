/** A placement exists for every configuration whose names do not clash and
    whose size is moderate, so the closed theorem speaks about all of those. */
module Plans {
  import opened Bytes
  import opened Lists
  import opened Encoder
  import opened Assembly
  import opened Linking
  import opened Linker
  import opened Config
  import opened EndToEnd
  import opened NameClashes
  import opened Sizes
  import GF = GeneratedFile
  import Passes

  // ---------- sizes ----------

  const MAX_BYTES: nat := 216_000_000
  const MAX_LABELS: nat := 3_000_000
  const MAX_SECTIONS: nat := 60_000

  /** At most 216 million bytes and 3 million labels in at most 60000 sections. */
  ghost predicate Moderate(o: Object) {
    && |o.contents| <= MAX_SECTIONS && |o.labels| <= MAX_LABELS && TotalAtMost(o.contents, MAX_BYTES)
    && (forall s :: s in o.contents ==> ShortName(s)) && (forall l :: l in o.labels ==> ShortName(l))
  }

  // ---------- the plan ----------

  /** Sections follow one another in memory. */
  function Base(o: Object, names: seq<string>, i: nat): nat
    requires i <= |names|
  {
    0x1_0000 + Total(o.contents, names[..i])
  }

  lemma {:induction false} BaseNext(o: Object, names: seq<string>, i: nat)
    requires i < |names|
    ensures Base(o, names, i + 1) == Base(o, names, i) + Size(o.contents, names[i])
  {
    hide Size;
    assert names[..i + 1][..i] == names[..i];
  }

  lemma {:induction false} BaseStart(o: Object, names: seq<string>, i: nat)
    requires i <= |names|
    ensures Base(o, names, i) >= 0x1_0000
  {
  }

  lemma {:induction false} BaseGrows(o: Object, names: seq<string>, i: nat, j: nat)
    requires i < j <= |names|
    ensures Base(o, names, i) + Size(o.contents, names[i]) <= Base(o, names, j)
    decreases j
  {
    hide Size, Base;
    BaseNext(o, names, j - 1);
    if i + 1 < j { BaseGrows(o, names, i, j - 1); }
  }

  lemma {:induction false} BaseBound(o: Object, names: seq<string>, i: nat)
    requires Moderate(o) && NoDup(names) && i < |names|
    ensures Base(o, names, i) + Size(o.contents, names[i]) <= 0x1_0000 + MAX_BYTES
  {
    hide Size, Total;
    BaseNext(o, names, i);
    assert NoDup(names[..i + 1]);
  }

  /** `names` lists the sections with bytes, `labels` the labels. */
  ghost predicate Listed(o: Object, names: seq<string>, labels: seq<string>) {
    && NoDup(names) && |names| <= MAX_SECTIONS && (forall s :: s in names <==> Placed(o, s))
    && NoDup(labels) && |labels| <= MAX_LABELS && (forall l :: l in labels <==> l in o.labels)
  }

  /** The TOC base, 32 KiB into the sections. */
  const TOC: u64 := 0x1_8000

  ghost function PlanFor(o: Object, names: seq<string>, labels: seq<string>): Plan
    requires Moderate(o) && Listed(o, names, labels)
  {
    Plan(names,
         map s | s in o.contents :: if s in names then AddressOf(o, names, s) else 0,
         map s | s in o.contents :: 0, labels, TOC)
  }

  ghost function AddressOf(o: Object, names: seq<string>, s: string): (a: u64)
    requires Moderate(o) && NoDup(names) && s in names && s in o.contents
    ensures a + |o.contents[s]| < TWO32
  {
    BaseBound(o, names, IndexOf(names, s));
    Base(o, names, IndexOf(names, s))
  }

  /** A program whose entry is a function descriptor at 0x1000. */
  const CODE: u64 := 0x2000
  const OPD := SecSpec(".opd", 1, 3, 0x1000, 0, BE(CODE, 8) + BE(TOC, 8) + BE(0, 8), 24, 0, 0, 8, 24)
  const BOOT := Program(0, 0x1000, 0, [OPD], [])

  lemma {:induction false} PlanCovers(o: Object, names: seq<string>, labels: seq<string>)
    requires Moderate(o) && Listed(o, names, labels)
    ensures Linker.Covers(o, PlanFor(o, names, labels))
  {
    hide AddressOf, NoDup, TotalAtMost;
    SmallSections(o);
  }

  lemma {:induction false} SmallSections(o: Object)
    requires Moderate(o)
    ensures forall s :: s in o.contents ==> |o.contents[s]| <= MAX_BYTES
  {
    forall s | s in o.contents ensures |o.contents[s]| <= MAX_BYTES {
      assert NoDup([s]);
      assert [s][..0] == [];
      assert Total(o.contents, [s]) == Size(o.contents, s);
    }
  }

  /** What the file is made of. */
  lemma {:induction false} PlanParts(o: Object, names: seq<string>, labels: seq<string>)
    requires Moderate(o) && Listed(o, names, labels)
    ensures Linker.Covers(o, PlanFor(o, names, labels))
    ensures var f := Skeleton(o, PlanFor(o, names, labels), BOOT);
      && |f.secs| == |names| + 1 && |f.syms| == |labels| && |f.phdrs| == |names| + 3 && f.secs[|names|] == OPD
      && (forall i :: 0 <= i < |names| ==>
            && names[i] in o.contents && f.secs[i].name == names[i] && f.secs[i].pad == 0
            && |f.secs[i].content| == |o.contents[names[i]]|)
      && (forall i :: 0 <= i < |labels| ==> f.syms[i].name == labels[i])
  {
    hide AddressOf, NoDup, Moderate, Relocated, LinkedByte, LabelOffsets, BE;
    PlanCovers(o, names, labels);
    forall i | 0 <= i < |names| ensures names[i] in o.contents { assert names[i] in names; }
  }

  lemma {:induction false} PlanNames(o: Object, names: seq<string>, labels: seq<string>)
    requires Moderate(o) && Listed(o, names, labels)
    ensures Linker.Covers(o, PlanFor(o, names, labels))
    ensures var f := Skeleton(o, PlanFor(o, names, labels), BOOT);
      && NamesPlain(f)
      && (forall i :: 0 <= i < |SymNames(f)| ==> |SymNames(f)[i]| < 0x3FF)
      && (forall i :: 0 <= i < |SecNames(f)| ==> |SecNames(f)[i]| < 0x3FF)
      && |SecNames(f)| == |names| + 5 && |SymNames(f)| == |labels| + 1
  {
    hide Skeleton, PlanFor, NoDup, Linker.Covers;
    PlanParts(o, names, labels);
    var f := Skeleton(o, PlanFor(o, names, labels), BOOT);
    FileNames(f, names, labels);
    FileNamesShort(f, names, labels);
  }

  ghost predicate AllShort(names: seq<string>) {
    forall i :: 0 <= i < |names| ==> ShortName(names[i])
  }

  lemma {:induction false} ShortAppend(a: seq<string>, b: seq<string>)
    requires AllShort(a) && AllShort(b)
    ensures AllShort(a + b)
  {
    hide ShortName;
  }

  lemma {:induction false} FileNames(f: ElfSpec, names: seq<string>, labels: seq<string>)
    requires |f.secs| == |names| + 1 && |f.syms| == |labels| && f.secs[|names|] == OPD
    requires forall i :: 0 <= i < |names| ==> f.secs[i].name == names[i]
    requires forall i :: 0 <= i < |labels| ==> f.syms[i].name == labels[i]
    ensures SecNames(f) == [""] + names + OWN_NAMES && SymNames(f) == [""] + labels
  {
    hide BE;
    var ss, n := SecNames(f), |names|;
    assert |ss| == n + 5 && ss[..1] == [""];
    assert ss[1..n + 1] == names;
    assert ss[n + 1..] == OWN_NAMES;
    assert ss == ss[..1] + ss[1..n + 1] + ss[n + 1..];
    assert SymNames(f)[1..] == labels;
  }

  lemma {:induction false} FileNamesShort(f: ElfSpec, names: seq<string>, labels: seq<string>)
    requires SecNames(f) == [""] + names + OWN_NAMES && SymNames(f) == [""] + labels
    requires AllShort(names) && AllShort(labels)
    ensures AllShort(SecNames(f)) && AllShort(SymNames(f))
  {
    OwnNamesPlain();
    hide AllShort, OWN_NAMES;
    ShortAppend([""], names);
    ShortAppend([""] + names, OWN_NAMES);
    ShortAppend([""], labels);
  }

  lemma {:induction false} OwnNamesPlain()
    ensures AllShort([""]) && AllShort(OWN_NAMES)
  {
  }

  /** The linked file fits the ELF64 field widths. */
  lemma {:induction false} PlanEncodable(o: Object, names: seq<string>, labels: seq<string>)
    requires Moderate(o) && Listed(o, names, labels)
    ensures Linker.Covers(o, PlanFor(o, names, labels)) && Encodable(Skeleton(o, PlanFor(o, names, labels), BOOT))
  {
    hide Concat, StrTab, SymTab, Moderate, NoDup, NameIndex, AllSecs, Skeleton, PlanFor, Linker.Covers, SecNames;
    PlanParts(o, names, labels);
    PlanNames(o, names, labels);
    var f := Skeleton(o, PlanFor(o, names, labels), BOOT);
    StrTabBound(SymNames(f));
    StrTabBound(SecNames(f));
    SymTabSize(f);
    assert TablesFit(f);
    BodyBound(o, names, labels);
  }

  /** The contents of the first `i` sections of the program. */
  lemma {:induction false} ContentsTotal(o: Object, names: seq<string>, f: ElfSpec, i: nat)
    requires TablesFit(f) && i <= |names| < |f.secs|
    requires forall j :: 0 <= j < |names| ==>
      names[j] in o.contents && f.secs[j].pad == 0 && |f.secs[j].content| == |o.contents[names[j]]|
    ensures ChunkStart(Chunks(f), i + 1) == Total(o.contents, names[..i])
  {
    hide Concat, StrTab, SymTab, AllSecs;
    var cs := Chunks(f);
    if i == 0 {
      ConcatAt(cs, 0);
      assert ChunkStart(cs, 0) == 0 by { EmptyStart(cs); }
      NullChunk(f);
    } else {
      ContentsTotal(o, names, f, i - 1);
      ConcatAt(cs, i);
      UserSection(f, i - 1);
      assert names[..i][..i - 1] == names[..i - 1];
    }
  }

  lemma {:induction false} NullChunk(f: ElfSpec)
    requires TablesFit(f)
    ensures |Chunks(f)[0]| == 0
  {
    hide StrTab, SymTab;
  }

  /** The section contents and the three tables of the writer. */
  lemma {:induction false} BodyBound(o: Object, names: seq<string>, labels: seq<string>)
    requires Moderate(o) && Listed(o, names, labels)
    requires Linker.Covers(o, PlanFor(o, names, labels)) && TablesFit(Skeleton(o, PlanFor(o, names, labels), BOOT))
    ensures var f := Skeleton(o, PlanFor(o, names, labels), BOOT);
      |Concat(Chunks(f))| <= MAX_BYTES + 24 + |SymTab(f)| + |StrTab(SymNames(f))| + |StrTab(SecNames(f))|
  {
    hide Concat, StrTab, SymTab, Skeleton, PlanFor, Linker.Covers, Total, AllSecs;
    PlanParts(o, names, labels);
    var f, n := Skeleton(o, PlanFor(o, names, labels), BOOT), |names|;
    ContentsTotal(o, names, f, n);
    assert names[..n] == names;
    var cs := Chunks(f);
    ConcatAt(cs, n + 1); ConcatAt(cs, n + 2); ConcatAt(cs, n + 3); ConcatAt(cs, n + 4);
    assert cs[..n + 5] == cs;
    UserSection(f, n);
    LastChunks(f);
  }

  lemma {:induction false} LastChunks(f: ElfSpec)
    requires TablesFit(f)
    ensures var cs, n := Chunks(f), |f.secs|;
      |cs[n + 1]| == |SymTab(f)| && |cs[n + 2]| == |StrTab(SymNames(f))| && |cs[n + 3]| == |StrTab(SecNames(f))|
  {
    hide StrTab, SymTab;
  }

  lemma {:induction false} PlanAddrs(o: Object, names: seq<string>, labels: seq<string>, i: nat)
    requires Moderate(o) && Listed(o, names, labels) && i < |names|
    ensures var m := PlanFor(o, names, labels).addrs; names[i] in m && m[names[i]] as int == Base(o, names, i)
  {
    hide Base, Moderate;
    assert names[i] in names && names[i] in o.contents;
  }

  lemma {:induction false} PlanAddress(o: Object, names: seq<string>, labels: seq<string>, i: nat)
    requires Moderate(o) && Listed(o, names, labels) && i < |names|
    ensures Linker.Covers(o, PlanFor(o, names, labels))
    ensures var s := Secs(o, PlanFor(o, names, labels), BOOT)[i];
      s.addr as int == Base(o, names, i) && s.size == Size(o.contents, names[i]) == |s.content|
  {
    hide Base, Relocated, Moderate, Linker.Covers, Secs, NoDup;
    PlanCovers(o, names, labels);
    PlanAddrs(o, names, labels, i);
    SecChoice(o, PlanFor(o, names, labels), BOOT, i);
    assert names[i] in names;
  }

  /** `.opd` in front, the sections of the file behind one another. */
  ghost predicate Chained(o: Object, names: seq<string>, secs: seq<SecSpec>) {
    && |secs| == |names| + 1 && secs[|names|] == OPD
    && forall i :: 0 <= i < |names| ==>
         secs[i].addr as int == Base(o, names, i) && secs[i].size == Size(o.contents, names[i]) == |secs[i].content|
  }

  lemma {:induction false} OpdFacts()
    ensures OPD.addr == 0x1000 && OPD.size == |OPD.content| == 24
  {
    hide BE;
  }

  lemma {:induction false} ChainedSpread(o: Object, names: seq<string>, secs: seq<SecSpec>)
    requires Moderate(o) && NoDup(names) && Chained(o, names, secs)
    ensures Spread(secs)
  {
    hide Size, Base, Moderate, NoDup, OPD;
    OpdFacts();
    forall i | 0 <= i < |secs| ensures secs[i].addr + secs[i].size < TWO64 && |secs[i].content| <= secs[i].size {
      if i < |names| { BaseBound(o, names, i); }
    }
    forall i, j | 0 <= i < j < |secs| ensures Behind(secs[i], secs[j]) {
      if j < |names| { BaseGrows(o, names, i, j); } else { BaseStart(o, names, i); }
    }
  }

  predicate Behind(a: SecSpec, b: SecSpec) {
    a.addr + a.size <= b.addr || b.addr + b.size <= a.addr
  }

  lemma {:induction false} PlanSpread(o: Object, names: seq<string>, labels: seq<string>)
    requires Moderate(o) && Listed(o, names, labels)
    ensures Linker.Covers(o, PlanFor(o, names, labels)) && Spread(Secs(o, PlanFor(o, names, labels), BOOT))
  {
    hide Size, Total, PlanFor, Linker.Covers, Moderate, Skeleton, Secs, Base, NoDup, Spread, OPD;
    PlanParts(o, names, labels);
    SkeletonSecs(o, PlanFor(o, names, labels), BOOT);
    var secs := Secs(o, PlanFor(o, names, labels), BOOT);
    forall i | 0 <= i < |names|
      ensures secs[i].addr as int == Base(o, names, i) && secs[i].size == Size(o.contents, names[i]) == |secs[i].content|
    {
      PlanAddress(o, names, labels, i);
    }
    ChainedSpread(o, names, secs);
  }

  lemma {:induction false} PlanNamesDistinct(o: Object, names: seq<string>, labels: seq<string>)
    requires Moderate(o) && Listed(o, names, labels)
    requires forall s :: s in RESERVED ==> s !in o.contents
    ensures Linker.Covers(o, PlanFor(o, names, labels)) && NoDup(SecNames(Skeleton(o, PlanFor(o, names, labels), BOOT)))
  {
    hide Skeleton, PlanFor, Linker.Covers, Plain, Moderate;
    PlanParts(o, names, labels);
    var f := Skeleton(o, PlanFor(o, names, labels), BOOT);
    FileNames(f, names, labels);
    OwnDistinct();
    assert forall s :: s in names ==> s !in RESERVED;
    hide RESERVED, OWN_NAMES, NoDup;
    NoDupAppend([""], names);
    NoDupAppend([""] + names, OWN_NAMES);
  }

  const OWN_NAMES: seq<string> := [".opd", ".symtab", ".strtab", ".shstrtab"]

  lemma {:induction false} OwnDistinct()
    ensures RESERVED == [""] + OWN_NAMES && NoDup(OWN_NAMES) && NoDup([""])
    ensures "" !in OWN_NAMES
  {
    assert |""| == 0 && |".opd"| == 4 && |".symtab"| == 7 && |".strtab"| == 7 && |".shstrtab"| == 9;
    assert ".symtab"[2] != ".strtab"[2];
  }

  lemma {:induction false} PlanCompatible(o: Object, names: seq<string>, labels: seq<string>)
    requires Moderate(o) && Listed(o, names, labels)
    requires forall s :: s in RESERVED ==> s !in o.contents
    ensures Linker.Covers(o, PlanFor(o, names, labels)) && Compatible(o, PlanFor(o, names, labels), BOOT)
  {
    hide Skeleton, PlanFor, Linker.Covers, Plain, Moderate, SecNames, NoDup, Spread, Encodable, RESERVED;
    PlanEncodable(o, names, labels);
    PlanSpread(o, names, labels);
    PlanNamesDistinct(o, names, labels);
    SkeletonSecs(o, PlanFor(o, names, labels), BOOT);
    assert |".opd"| == 4 && |HEADER_SECTION| == 9;
  }

  // ---------- the theorem ----------

  /** A configuration in key order without name clashes, whose names make
      symbols of at most 1000 characters (71 for libraries), with at most 59993
      libraries and three million directives (some 600000 functions). */
  ghost predicate Reasonable(c: Config) {
    && KeyOrdered(c.libs) && NamesOk(c.libs) && CountsFit(c.libs) && Nameable(c.libs) && ShortNames(c.libs)
    && |MoldierDirectives(c)| <= MAX_LABELS && |c.libs| <= MAX_SECTIONS - 7
  }

  lemma {:induction false} ReasonableAssembles(c: Config)
    requires Reasonable(c)
    ensures Generated(c) && Moderate(GF.File(c)) && Assembles(MoldierDirectives(c))
  {
    hide NamesOk, KeyOrdered, MoldierDirectives, GF.File, CountsFit, Assembles, Nameable, ShortNames, NoDup;
    AssemblesExactly(c);
    FileSized(c);
  }

  /** The closed theorem on configurations alone: each reasonable one has a
      placement, and so a linked and patched file out of which the loader reads
      exactly the configured imports. */
  lemma {:induction false} EveryConfigurationLoads(c: Config) returns (plan: Plan, order: seq<string>)
    requires Reasonable(c)
    ensures Generated(c) && Linker.Covers(GF.File(c), plan) && Compatible(GF.File(c), plan, BOOT)
    ensures Passes.Enumerates(order, Output(GF.File(c), plan, BOOT).symbols)
    ensures EndToEnd.SlotLabels(c) && PatchesTo(LinkedFile(c, plan, BOOT), order, AskedImports(c, plan))
  {
    hide GF.File, Linker.Covers, Compatible, Generated, Moderate, PlanFor, PatchesTo, LinkedFile, AskedImports,
      Output, Reasonable, Assembles, MoldierDirectives;
    ReasonableAssembles(c);
    var o := GF.File(c);
    var placed := set s | s in o.contents && Placed(o, s);
    var names := Listing(placed);
    var labels := Listing(o.labels.Keys);
    FewPlaced(o, placed, |names|);
    forall s | s in RESERVED ensures s !in o.contents { NotASection(c, s); }
    plan := PlanFor(o, names, labels);
    PlanCompatible(o, names, labels);
    order := Listing(Output(o, plan, BOOT).symbols.Keys);
    ConfigurationReachesLoader(c, plan, BOOT, order);
  }

  lemma {:induction false} FewPlaced(o: Object, placed: set<string>, n: nat)
    requires Moderate(o) && placed <= o.contents.Keys && n == |placed|
    ensures n <= MAX_SECTIONS && |o.labels.Keys| <= MAX_LABELS
  {
    Smaller(placed, o.contents.Keys);
    assert |o.contents.Keys| == |o.contents| && |o.labels.Keys| == |o.labels|;
  }

  lemma {:induction false} Smaller<T>(a: set<T>, b: set<T>)
    requires a <= b
    ensures |a| <= |b|
  {
    assert b == a + (b - a);
  }
}
