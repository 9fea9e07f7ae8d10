/** The assembler directives the generators emit, and what assembling them
    puts into sections, labels and code. */
module Assembly {
  import opened Bytes
  import opened Wrappers
  import opened Encoder
  import opened Lists

  type Reg = r: nat | r < 32

  /** The PowerPC instructions of a trampoline; `TocHa` and `TocLo` are the
      `@toc@ha` and `@toc@l` halves of a symbol's TOC offset, which only the
      linker knows. */
  datatype Insn =
    | Mflr(rt: Reg) | Mtlr(rs: Reg) | Mtctr(rs: Reg)
    | Std(rs: Reg, ds: int, ra: Reg) | Stdu(rs: Reg, ds: int, ra: Reg)
    | Ld(rt: Reg, ds: int, ra: Reg) | Lwz(rt: Reg, ds: int, ra: Reg)
    | Addi(rt: Reg, ra: Reg, si: int) | Addis(rt: Reg, ra: Reg, si: int)
    | AddisTocHa(rt: Reg, ra: Reg, symbol: string) | AddiTocLo(rt: Reg, ra: Reg, symbol: string)
    | Bctrl | Blr

  datatype Directive =
    | Section(name: string, flags: string)
    | Align(log2: nat)
    | Globl(symbol: string)
    | Label(symbol: string)
    | Int(value: nat)
    | Short(value: nat)
    | Asciz(text: string)
    | DefineStub(name: string)

  /** A position in a section. */
  datatype Place = Place(sec: string, off: nat)

  datatype Object = Object(cur: string, contents: map<string, seq<byte>>, labels: map<string, Place>, code: map<Place, Insn>)

  const EMPTY_OBJECT := Object(".text", map[".text" := []], map[], map[])

  /** The body of the DEFINE_STUB macro. */
  function StubInsns(name: string): (r: seq<Insn>)
    ensures |r| == 16
  {
    [Mflr(0), Std(0, 16, 1), Std(2, 40, 1), Stdu(1, -128, 1),
     AddisTocHa(12, 2, name + "_stub"), AddiTocLo(12, 12, name + "_stub"),
     Lwz(12, 0, 12), Lwz(0, 0, 12), Lwz(2, 4, 12), Mtctr(0), Bctrl,
     Addi(1, 1, 128), Ld(2, 40, 1), Ld(0, 16, 1), Mtlr(0), Blr]
  }

  /** The instruction word; a TOC half is left zero for the linker. */
  function InsnWord(i: Insn): nat {
    match i
    case Mflr(t) => 0x7C0802A6 + t * 0x20_0000
    case Mtlr(s) => 0x7C0803A6 + s * 0x20_0000
    case Mtctr(s) => 0x7C0903A6 + s * 0x20_0000
    case Std(s, d, a) => 0xF8000000 + s * 0x20_0000 + a * 0x1_0000 + d % 0x1_0000
    case Stdu(s, d, a) => 0xF8000001 + s * 0x20_0000 + a * 0x1_0000 + d % 0x1_0000
    case Ld(t, d, a) => 0xE8000000 + t * 0x20_0000 + a * 0x1_0000 + d % 0x1_0000
    case Lwz(t, d, a) => 0x80000000 + t * 0x20_0000 + a * 0x1_0000 + d % 0x1_0000
    case Addi(t, a, si) => 0x38000000 + t * 0x20_0000 + a * 0x1_0000 + si % 0x1_0000
    case Addis(t, a, si) => 0x3C000000 + t * 0x20_0000 + a * 0x1_0000 + si % 0x1_0000
    case AddisTocHa(t, a, _) => 0x3C000000 + t * 0x20_0000 + a * 0x1_0000
    case AddiTocLo(t, a, _) => 0x38000000 + t * 0x20_0000 + a * 0x1_0000
    case Bctrl => 0x4E800421
    case Blr => 0x4E800020
  }

  function Pow2(n: nat): (p: nat)
    ensures p >= 1
  {
    if n == 0 then 1 else 2 * Pow2(n - 1)
  }

  // ---------- assembling ----------

  /** The current section exists, and recorded code lies inside its section. */
  ghost predicate Wf(o: Object) {
    && o.cur in o.contents
    && forall p :: p in o.code ==> p.sec in o.contents && p.off + 4 <= |o.contents[p.sec]|
  }

  function Here(o: Object): Place
    requires o.cur in o.contents
  {
    Place(o.cur, |o.contents[o.cur]|)
  }

  function Emit(o: Object, bs: seq<byte>): Object
    requires o.cur in o.contents
  {
    o.(contents := o.contents[o.cur := o.contents[o.cur] + bs])
  }

  function EmitCode(o: Object, insns: seq<Insn>): (r: Object)
    requires o.cur in o.contents
    ensures r.cur == o.cur && r.cur in r.contents
  {
    if insns == [] then o
    else
      var i := insns[|insns| - 1];
      var m := EmitCode(o, insns[..|insns| - 1]);
      Emit(m.(code := m.code[Here(m) := i]), BE(InsnWord(i), 4))
  }

  function Define(o: Object, symbol: string): Object
    requires o.cur in o.contents
  {
    o.(labels := o.labels[symbol := Here(o)])
  }

  function Pad(o: Object, log2: nat): Object
    requires o.cur in o.contents
  {
    var over := |o.contents[o.cur]| % Pow2(log2);
    if over == 0 then o else Emit(o, Zeros(Pow2(log2) - over))
  }

  function TextBytes(text: string): seq<byte> {
    if Plain(text) then Ascii(text) + [0] else [0]
  }

  function Step(o: Object, d: Directive): (r: Object)
    requires o.cur in o.contents
    ensures r.cur in r.contents
  {
    match d
    case Section(name, _) =>
      o.(cur := name, contents := if name in o.contents then o.contents else o.contents[name := []])
    case Align(n) => Pad(o, n)
    case Globl(_) => o
    case Label(l) => Define(o, l)
    case Int(v) => Emit(o, BE(v, 4))
    case Short(v) => Emit(o, BE(v, 2))
    case Asciz(t) => Emit(o, TextBytes(t))
    case DefineStub(name) => EmitCode(Define(Pad(o, 2), name), StubInsns(name))
  }

  function Layout(o: Object, ds: seq<Directive>): (r: Object)
    requires o.cur in o.contents
    ensures r.cur in r.contents
  {
    if ds == [] then o else Step(Layout(o, ds[..|ds| - 1]), ds[|ds| - 1])
  }

  function Defines(d: Directive): seq<string> {
    match d
    case Label(l) => [l]
    case DefineStub(n) => [n]
    case _ => []
  }

  /** The labels `ds` defines, in order. */
  function Labels(ds: seq<Directive>): seq<string> {
    if ds == [] then [] else Labels(ds[..|ds| - 1]) + Defines(ds[|ds| - 1])
  }

  /** Every value fits its directive. */
  predicate InRange(ds: seq<Directive>) {
    forall i :: 0 <= i < |ds| ==>
      match ds[i] {
        case Int(v) => v < TWO32
        case Short(v) => v < 0x1_0000
        case Asciz(t) => Plain(t)
        case _ => true
      }
  }

  predicate Digit(ch: char) { '0' <= ch <= '9' }

  predicate SymbolChar(ch: char) {
    'a' <= ch <= 'z' || 'A' <= ch <= 'Z' || Digit(ch) || ch == '_' || ch == '.' || ch == '$'
  }

  /** Every character may occur in a symbol, and the first one may start it. */
  predicate SymbolPrefix(s: string) {
    (forall i :: 0 <= i < |s| ==> SymbolChar(s[i])) && (s != "" ==> !Digit(s[0]))
  }

  /** A name an assembler takes as a symbol without quotes. */
  predicate IsSymbol(s: string) { SymbolPrefix(s) && s != "" && s != "." }

  ghost predicate AllSymbols(labels: seq<string>) {
    forall l :: l in labels ==> IsSymbol(l)
  }

  /** Assembling fails on a label defined twice, a label that is no symbol, or a
      value too large. */
  ghost predicate Assembles(ds: seq<Directive>) {
    NoDup(Labels(ds)) && AllSymbols(Labels(ds)) && InRange(ds)
  }

  ghost function Assemble(ds: seq<Directive>): Result<Object> {
    if Assembles(ds) then Ok(Layout(EMPTY_OBJECT, ds)) else Err("bad or repeated symbol, or value out of range")
  }

  // ---------- composition ----------

  lemma {:induction false} LayoutAppend(o: Object, a: seq<Directive>, b: seq<Directive>)
    requires o.cur in o.contents
    ensures Layout(o, a + b) == Layout(Layout(o, a), b)
  {
    hide Step;
    if b == [] {
      assert a + b == a;
    } else {
      var n := |b| - 1;
      assert (a + b)[..|a| + n] == a + b[..n];
      LayoutAppend(o, a, b[..n]);
    }
  }

  lemma {:induction false} LayoutOne(o: Object, d: Directive)
    requires o.cur in o.contents
    ensures Layout(o, [d]) == Step(o, d)
  {
    hide Step;
    assert [d][..0] == [];
    assert Layout(o, [d][..0]) == o;
  }

  lemma {:induction false} LayoutTwo(o: Object, d: Directive, e: Directive)
    requires o.cur in o.contents
    ensures Layout(o, [d, e]) == Step(Step(o, d), e)
  {
    hide Step;
    assert [d, e] == [d] + [e];
    LayoutAppend(o, [d], [e]);
    LayoutOne(o, d);
    LayoutOne(Step(o, d), e);
  }

  lemma {:induction false} LabelsAppend(a: seq<Directive>, b: seq<Directive>)
    ensures Labels(a + b) == Labels(a) + Labels(b)
  {
    hide Defines;
    if b == [] {
      assert a + b == a;
    } else {
      var n := |b| - 1;
      assert (a + b)[..|a| + n] == a + b[..n];
      LabelsAppend(a, b[..n]);
    }
  }

  // ---------- what assembling more directives keeps ----------

  /** Everything `o` holds is still there in `p`. */
  ghost predicate Extends(o: Object, p: Object) {
    && (forall s :: s in o.contents ==> s in p.contents && o.contents[s] <= p.contents[s])
    && (forall l :: l in o.labels ==> l in p.labels && p.labels[l] == o.labels[l])
    && (forall c :: c in o.code ==> c in p.code && p.code[c] == o.code[c])
  }

  lemma {:induction false} ExtendsTransitive(o: Object, p: Object, q: Object)
    requires Extends(o, p) && Extends(p, q)
    ensures Extends(o, q)
  {
  }

  lemma {:induction false} WfCurrent(o: Object)
    requires Wf(o)
    ensures o.cur in o.contents
  {
  }

  lemma {:induction false} ExtendsSelf(o: Object)
    ensures Extends(o, o)
  {
  }

  lemma {:induction false} CodeExtends(o: Object, p: Object, sec: string, off: nat, i: Insn)
    requires Extends(o, p) && CodeAt(o, sec, off, i)
    ensures CodeAt(p, sec, off, i)
  {
  }

  /** The labels of `ds` are new and pairwise distinct. */
  ghost predicate Fresh(o: Object, ds: seq<Directive>) {
    NoDup(Labels(ds)) && forall l :: l in Labels(ds) ==> l !in o.labels
  }

  /** Instruction `i` was assembled at byte `off` of section `sec`. */
  predicate CodeAt(o: Object, sec: string, off: nat, i: Insn) {
    Place(sec, off) in o.code && o.code[Place(sec, off)] == i
  }

  lemma {:induction false} EmitOneExtends(m: Object, i: Insn)
    requires Wf(m)
    ensures var r := Emit(m.(code := m.code[Here(m) := i]), BE(InsnWord(i), 4));
      && Wf(r) && Extends(m, r) && CodeAt(r, m.cur, |m.contents[m.cur]|, i)
  {
    hide InsnWord, BE;
  }

  lemma {:induction false} EmitCodeFrame(o: Object, insns: seq<Insn>)
    requires o.cur in o.contents
    ensures var r := EmitCode(o, insns);
      && r.cur == o.cur && r.labels == o.labels && r.contents.Keys == o.contents.Keys
      && |r.contents[r.cur]| == |o.contents[o.cur]| + 4 * |insns|
      && (forall s :: s in o.contents && s != o.cur ==> r.contents[s] == o.contents[s])
  {
    hide InsnWord, BE;
    if insns != [] { EmitCodeFrame(o, insns[..|insns| - 1]); }
  }

  lemma {:induction false} EmitCodeExtends(o: Object, insns: seq<Insn>)
    requires Wf(o)
    ensures var r := EmitCode(o, insns);
      && Wf(r) && Extends(o, r)
      && (forall k :: 0 <= k < |insns| ==> CodeAt(r, o.cur, |o.contents[o.cur]| + 4 * k, insns[k]))
  {
    hide InsnWord, BE, Emit, Wf, Extends;
    WfCurrent(o);
    if insns == [] {
      ExtendsSelf(o);
    } else {
      var n := |insns| - 1;
      EmitCodeExtends(o, insns[..n]);
      EmitCodeFrame(o, insns[..n]);
      var m, r := EmitCode(o, insns[..n]), EmitCode(o, insns);
      EmitOneExtends(m, insns[n]);
      ExtendsTransitive(o, m, r);
      forall k | 0 <= k < |insns| ensures CodeAt(r, o.cur, |o.contents[o.cur]| + 4 * k, insns[k]) {
        if k < n {
          assert CodeAt(m, o.cur, |o.contents[o.cur]| + 4 * k, insns[..n][k]);
          CodeExtends(m, r, o.cur, |o.contents[o.cur]| + 4 * k, insns[k]);
        }
      }
    }
  }

  lemma {:induction false} DefineExtends(o: Object, symbol: string)
    requires Wf(o) && symbol !in o.labels
    ensures Wf(Define(o, symbol)) && Extends(o, Define(o, symbol))
  {
  }

  lemma {:induction false} PadExtends(o: Object, n: nat)
    requires Wf(o)
    ensures Wf(Pad(o, n)) && Extends(o, Pad(o, n)) && Pad(o, n).labels == o.labels && Pad(o, n).cur == o.cur
    ensures Pad(o, n).contents.Keys == o.contents.Keys
    ensures forall s :: s in o.contents && s != o.cur ==> Pad(o, n).contents[s] == o.contents[s]
  {
    hide Pow2;
  }

  /** A trampoline: its label, then its sixteen instructions. */
  lemma {:induction false} StubExtends(o: Object, name: string)
    requires Wf(o) && name !in o.labels
    ensures var r, p := Step(o, DefineStub(name)), Pad(o, 2);
      && Wf(r) && Extends(o, r) && r.cur == o.cur && r.labels == o.labels[name := Here(p)]
      && |r.contents[r.cur]| == Here(p).off + 64
      && (forall k :: 0 <= k < 16 ==> CodeAt(r, o.cur, Here(p).off + 4 * k, StubInsns(name)[k]))
      && r.contents.Keys == o.contents.Keys
      && (forall s :: s in o.contents && s != o.cur ==> r.contents[s] == o.contents[s])
  {
    hide Pad, StubInsns, EmitCode, CodeAt;
    var p := Pad(o, 2);
    PadExtends(o, 2);
    DefineExtends(p, name);
    var q := Define(p, name);
    EmitCodeExtends(q, StubInsns(name));
    EmitCodeFrame(q, StubInsns(name));
    ExtendsTransitive(o, p, q);
    ExtendsTransitive(o, q, EmitCode(q, StubInsns(name)));
  }

  lemma {:induction false} StepExtends(o: Object, d: Directive)
    requires Wf(o) && Fresh(o, [d])
    ensures var r := Step(o, d);
      && Wf(r) && Extends(o, r) && forall l :: l in r.labels <==> l in o.labels || l in Labels([d])
  {
    hide BE, TextBytes, EmitCode, Pad, StubInsns;
    assert [d][..0] == [];
    match d {
      case DefineStub(name) =>
        assert name in Labels([d]);
        StubExtends(o, name);
      case Label(l) => assert l in Labels([d]);
      case Align(n) => PadExtends(o, n);
      case _ =>
    }
  }

  lemma {:induction false} FreshSplit(o: Object, a: seq<Directive>, b: seq<Directive>)
    ensures Fresh(o, a + b) <==>
      Fresh(o, a) && Fresh(o, b) && forall l :: l in Labels(a) ==> l !in Labels(b)
  {
    hide Labels;
    LabelsAppend(a, b);
    NoDupAppend(Labels(a), Labels(b));
  }

  lemma {:induction false} LayoutExtends(o: Object, ds: seq<Directive>)
    requires Wf(o) && Fresh(o, ds)
    ensures var r := Layout(o, ds);
      && Wf(r) && Extends(o, r) && forall l :: l in r.labels <==> l in o.labels || l in Labels(ds)
  {
    hide Step, Labels;
    if ds == [] {
      assert Labels(ds) == [] by { LabelsNone(); }
    } else {
      var init, d := ds[..|ds| - 1], ds[|ds| - 1];
      assert ds == init + [d];
      FreshSplit(o, init, [d]);
      LayoutExtends(o, init);
      var m := Layout(o, init);
      forall l | l in Labels([d]) ensures l !in m.labels {
        assert l !in o.labels;
        assert l !in Labels(init);
      }
      StepExtends(m, d);
      LabelsAppend(init, [d]);
    }
  }

  lemma {:induction false} LabelsNone()
    ensures Labels([]) == []
  {
  }

  /** Every label lies in its section. */
  ghost predicate LabelsInside(o: Object) {
    forall l :: l in o.labels ==> o.labels[l].sec in o.contents && o.labels[l].off <= |o.contents[o.labels[l].sec]|
  }

  lemma {:induction false} StepInside(o: Object, d: Directive)
    requires Wf(o) && Fresh(o, [d]) && LabelsInside(o)
    ensures LabelsInside(Step(o, d))
  {
    hide BE, TextBytes, EmitCode, StubInsns, Fresh, Pad;
    StepExtends(o, d);
    match d {
      case DefineStub(name) =>
        assert name !in o.labels by { DefinesFresh(o, d); }
        StubExtends(o, name);
      case Align(n) => PadExtends(o, n);
      case _ =>
    }
  }

  lemma {:induction false} DefinesFresh(o: Object, d: Directive)
    requires Fresh(o, [d]) && d.DefineStub?
    ensures d.name !in o.labels
  {
    assert [d][..0] == [];
    assert d.name in Labels([d]);
  }

  lemma {:induction false} LayoutInside(o: Object, ds: seq<Directive>)
    requires Wf(o) && Fresh(o, ds) && LabelsInside(o)
    ensures LabelsInside(Layout(o, ds))
  {
    hide Step, Labels, Fresh, LabelsInside;
    if ds != [] {
      var init, d := ds[..|ds| - 1], ds[|ds| - 1];
      assert ds == init + [d];
      Sequence(o, init, [d]);
      LayoutInside(o, init);
      StepInside(Layout(o, init), d);
    }
  }

  /** Assembling `a` then `b`: `b` is fresh after `a`, and keeps what `a` made. */
  lemma {:induction false} Sequence(o: Object, a: seq<Directive>, b: seq<Directive>)
    requires Wf(o) && Fresh(o, a + b)
    ensures var m := Layout(o, a);
      && Fresh(o, a) && Wf(m) && Fresh(m, b) && Layout(o, a + b) == Layout(m, b)
      && Wf(Layout(m, b)) && Extends(o, m) && Extends(m, Layout(m, b))
  {
    hide Layout, Labels;
    FreshSplit(o, a, b);
    LayoutExtends(o, a);
    LayoutAppend(o, a, b);
    forall l | l in Labels(b) ensures l !in Layout(o, a).labels {
      assert l !in o.labels;
      assert l !in Labels(a);
    }
    LayoutExtends(Layout(o, a), b);
  }

  // ---------- code is what its words say ----------

  /** Instruction `i` is recorded at a multiple of four, and its word is there. */
  predicate WrittenAt(o: Object, p: Place, i: Insn) {
    && p.off % 4 == 0 && p.sec in o.contents && p.off + 4 <= |o.contents[p.sec]|
    && o.contents[p.sec][p.off..p.off + 4] == BE(InsnWord(i), 4)
  }

  ghost predicate CodeWritten(o: Object) {
    forall p :: p in o.code ==> WrittenAt(o, p, o.code[p])
  }

  lemma {:induction false} WrittenExtends(o: Object, r: Object)
    requires Extends(o, r) && CodeWritten(o)
    ensures forall p :: p in o.code ==> p in r.code && WrittenAt(r, p, r.code[p])
  {
    hide InsnWord, BE;
    forall p | p in o.code ensures p in r.code && WrittenAt(r, p, r.code[p]) {
      assert WrittenAt(o, p, o.code[p]);
      assert r.contents[p.sec][p.off..p.off + 4] == o.contents[p.sec][p.off..p.off + 4];
    }
  }

  lemma {:induction false} EmitOneWritten(m: Object, i: Insn)
    requires Wf(m) && CodeWritten(m) && |m.contents[m.cur]| % 4 == 0
    ensures CodeWritten(Emit(m.(code := m.code[Here(m) := i]), BE(InsnWord(i), 4)))
  {
    hide InsnWord, BE, Extends;
    var r := Emit(m.(code := m.code[Here(m) := i]), BE(InsnWord(i), 4));
    EmitOneExtends(m, i);
    WrittenExtends(m, r);
    assert r.contents[m.cur][|m.contents[m.cur]|..] == BE(InsnWord(i), 4);
  }

  lemma {:induction false} EmitCodeWritten(o: Object, insns: seq<Insn>)
    requires Wf(o) && CodeWritten(o) && |o.contents[o.cur]| % 4 == 0
    ensures CodeWritten(EmitCode(o, insns))
  {
    hide InsnWord, BE, CodeWritten, Extends;
    if insns != [] {
      var init := insns[..|insns| - 1];
      EmitCodeWritten(o, init);
      EmitCodeFrame(o, init);
      EmitCodeExtends(o, init);
      EmitOneWritten(EmitCode(o, init), insns[|insns| - 1]);
    }
  }

  lemma {:induction false} PadAligns(o: Object)
    requires o.cur in o.contents
    ensures |Pad(o, 2).contents[o.cur]| % 4 == 0
  {
    assert Pow2(2) == 2 * Pow2(1) && Pow2(1) == 2;
  }

  lemma {:induction false} StepWritten(o: Object, d: Directive)
    requires Wf(o) && Fresh(o, [d]) && CodeWritten(o)
    ensures CodeWritten(Step(o, d))
  {
    hide BE, TextBytes, EmitCode, StubInsns, Fresh, Pad, CodeWritten, Extends;
    StepExtends(o, d);
    if d.DefineStub? {
      var p := Pad(o, 2);
      assert d.name !in o.labels by { DefinesFresh(o, d); }
      PadExtends(o, 2);
      PadAligns(o);
      PadCode(o, 2);
      DefineExtends(p, d.name);
      SameCode(o, p);
      SameCode(p, Define(p, d.name));
      EmitCodeWritten(Define(p, d.name), StubInsns(d.name));
    } else {
      if d.Align? { PadExtends(o, d.log2); PadCode(o, d.log2); }
      SameCode(o, Step(o, d));
    }
  }

  lemma {:induction false} PadCode(o: Object, n: nat)
    requires o.cur in o.contents
    ensures Pad(o, n).code == o.code && Pad(o, n).cur == o.cur && o.cur in Pad(o, n).contents
  {
    hide Pow2;
  }

  lemma {:induction false} SameCode(o: Object, r: Object)
    requires Extends(o, r) && CodeWritten(o) && r.code == o.code
    ensures CodeWritten(r)
  {
    hide WrittenAt;
    WrittenExtends(o, r);
  }

  lemma {:induction false} LayoutWritten(o: Object, ds: seq<Directive>)
    requires Wf(o) && Fresh(o, ds) && CodeWritten(o)
    ensures CodeWritten(Layout(o, ds))
  {
    hide Step, Labels, Fresh, CodeWritten;
    if ds != [] {
      var init, d := ds[..|ds| - 1], ds[|ds| - 1];
      assert ds == init + [d];
      Sequence(o, init, [d]);
      LayoutWritten(o, init);
      StepWritten(Layout(o, init), d);
    }
  }

  /** Code goes where the current section is when a stub is defined. */
  ghost predicate CodeOnlyIn(o: Object, s: string) {
    forall p :: p in o.code ==> p.sec == s
  }

  lemma {:induction false} EmitCodePlaces(o: Object, insns: seq<Insn>)
    requires o.cur in o.contents
    ensures forall p :: p in EmitCode(o, insns).code ==> p in o.code || p.sec == o.cur
  {
    hide InsnWord, BE;
    if insns != [] {
      EmitCodePlaces(o, insns[..|insns| - 1]);
    }
  }

  ghost predicate NoStubs(ds: seq<Directive>) {
    forall i :: 0 <= i < |ds| ==> !ds[i].DefineStub?
  }

  ghost predicate OnlyStubs(ds: seq<Directive>) {
    forall i :: 0 <= i < |ds| ==> ds[i].DefineStub?
  }

  lemma {:induction false} LayoutNoCode(o: Object, ds: seq<Directive>)
    requires o.cur in o.contents && NoStubs(ds)
    ensures Layout(o, ds).code == o.code
  {
    hide BE, TextBytes, Pad;
    if ds != [] {
      var init, d := ds[..|ds| - 1], ds[|ds| - 1];
      LayoutNoCode(o, init);
      if d.Align? { PadCode(Layout(o, init), d.log2); }
    }
  }

  lemma {:induction false} LayoutStubs(o: Object, ds: seq<Directive>)
    requires o.cur in o.contents && OnlyStubs(ds) && CodeOnlyIn(o, o.cur)
    ensures Layout(o, ds).cur == o.cur && CodeOnlyIn(Layout(o, ds), o.cur)
  {
    hide EmitCode, StubInsns, Pad;
    if ds != [] {
      var init, d := ds[..|ds| - 1], ds[|ds| - 1];
      LayoutStubs(o, init);
      var m := Layout(o, init);
      PadCode(m, 2);
      EmitCodePlaces(Define(Pad(m, 2), d.name), StubInsns(d.name));
    }
  }

  // ---------- sections that are not touched ----------

  /** `ds` never enters section `s`. */
  predicate Avoids(ds: seq<Directive>, s: string) {
    forall i :: 0 <= i < |ds| && ds[i].Section? ==> ds[i].name != s
  }

  lemma {:induction false} StepAvoids(o: Object, d: Directive, s: string)
    requires Wf(o) && Fresh(o, [d]) && o.cur != s && (d.Section? ==> d.name != s)
    ensures var r := Step(o, d);
      && r.cur != s && (s in r.contents <==> s in o.contents)
      && (s in o.contents ==> r.contents[s] == o.contents[s])
  {
    hide BE, TextBytes, EmitCode, Pad;
    assert [d][..0] == [];
    match d {
      case DefineStub(name) =>
        assert name in Labels([d]);
        StubExtends(o, name);
      case Align(n) => PadExtends(o, n);
      case _ =>
    }
  }

  lemma {:induction false} LayoutAvoids(o: Object, ds: seq<Directive>, s: string)
    requires Wf(o) && Fresh(o, ds) && o.cur != s && Avoids(ds, s)
    ensures var r := Layout(o, ds);
      && r.cur != s && (s in r.contents <==> s in o.contents)
      && (s in o.contents ==> r.contents[s] == o.contents[s])
  {
    hide Labels, Step, Fresh;
    if ds != [] {
      var init, d := ds[..|ds| - 1], ds[|ds| - 1];
      assert ds == init + [d];
      Sequence(o, init, [d]);
      LayoutAvoids(o, init, s);
      StepAvoids(Layout(o, init), d, s);
    }
  }
}
