/** Where the generated file puts each library's name, FNID table, stub slots,
    import header and trampolines. */
module ImportLayout {
  import opened Bytes
  import opened Assembly
  import opened Config
  import G = Generators

  // ---------- runs of data directives ----------

  predicate IsData(d: Directive) {
    d.Globl? || d.Label? || d.Int? || d.Short? || d.Asciz?
  }

  predicate AllData(ds: seq<Directive>) {
    forall i :: 0 <= i < |ds| ==> IsData(ds[i])
  }

  lemma {:induction false} AllDataAppend(a: seq<Directive>, b: seq<Directive>)
    ensures AllData(a + b) <==> AllData(a) && AllData(b)
  {
    hide IsData;
    if AllData(a + b) {
      assert forall i :: 0 <= i < |a| ==> (a + b)[i] == a[i];
      assert forall i :: 0 <= i < |b| ==> (a + b)[|a| + i] == b[i];
    }
  }

  function BytesOf(d: Directive): seq<byte> {
    match d
    case Int(v) => BE(v, 4)
    case Short(v) => BE(v, 2)
    case Asciz(t) => TextBytes(t)
    case _ => []
  }

  function Payload(ds: seq<Directive>): seq<byte> {
    if ds == [] then [] else Payload(ds[..|ds| - 1]) + BytesOf(ds[|ds| - 1])
  }

  lemma {:induction false} PayloadAppend(a: seq<Directive>, b: seq<Directive>)
    ensures Payload(a + b) == Payload(a) + Payload(b)
  {
    hide BytesOf;
    if b == [] {
      assert a + b == a;
    } else {
      var n := |b| - 1;
      assert (a + b)[..|a| + n] == a + b[..n];
      PayloadAppend(a, b[..n]);
    }
  }

  lemma {:induction false} PayloadNone()
    ensures Payload([]) == []
  {
  }

  lemma {:induction false} PayloadOne(d: Directive)
    ensures Payload([d]) == BytesOf(d)
  {
    assert [d][..0] == [];
  }

  lemma {:induction false} DataStep(o: Object, d: Directive)
    requires o.cur in o.contents && IsData(d)
    ensures var r := Step(o, d); r.cur == o.cur && r.contents == o.contents[o.cur := o.contents[o.cur] + BytesOf(d)]
  {
    hide BE, TextBytes;
    assert o.contents[o.cur] + [] == o.contents[o.cur];
  }

  /** Data directives append their payload to the current section. */
  lemma {:induction false} DataLaid(o: Object, ds: seq<Directive>)
    requires o.cur in o.contents && AllData(ds)
    ensures var r := Layout(o, ds);
      r.cur == o.cur && r.contents == o.contents[o.cur := o.contents[o.cur] + Payload(ds)]
  {
    hide BytesOf, Step;
    if ds == [] {
      assert o.contents[o.cur] + [] == o.contents[o.cur];
    } else {
      var init, d := ds[..|ds| - 1], ds[|ds| - 1];
      DataLaid(o, init);
      DataStep(Layout(o, init), d);
      assert o.contents[o.cur] + Payload(ds) == (o.contents[o.cur] + Payload(init)) + BytesOf(d);
    }
  }

  /** The section `sec` holds `bs` at `off`. */
  predicate HasBytes(o: Object, sec: string, off: nat, bs: seq<byte>) {
    sec in o.contents && off + |bs| <= |o.contents[sec]| && o.contents[sec][off..off + |bs|] == bs
  }

  predicate BoundTo(o: Object, symbol: string, p: Place) {
    symbol in o.labels && o.labels[symbol] == p
  }

  lemma {:induction false} HasBytesExtends(o: Object, p: Object, sec: string, off: nat, bs: seq<byte>)
    requires Extends(o, p) && HasBytes(o, sec, off, bs)
    ensures HasBytes(p, sec, off, bs)
  {
    assert p.contents[sec][off..off + |bs|] == o.contents[sec][off..off + |bs|];
  }

  /** A label inside a run of data, and what follows it. */
  lemma {:induction false} LabelLaid(o: Object, a: seq<Directive>, l: string, b: seq<Directive>)
    requires Wf(o) && AllData(a) && AllData(b) && Fresh(o, a + [Label(l)] + b)
    ensures var r, at := Layout(o, a + [Label(l)] + b), |o.contents[o.cur]| + |Payload(a)|;
      && BoundTo(r, l, Place(o.cur, at)) && HasBytes(r, o.cur, at, Payload(b))
      && r.cur == o.cur && r.contents[o.cur] == o.contents[o.cur] + Payload(a) + Payload(b)
  {
    hide Payload, Layout, Fresh;
    Sequence(o, a + [Label(l)], b);
    Sequence(o, a, [Label(l)]);
    DataLaid(o, a);
    var m := Layout(o, a);
    LayoutOne(m, Label(l));
    DataLaid(Layout(o, a + [Label(l)]), b);
  }

  /** A labelled body inside a run of data. */
  lemma {:induction false} EntryLaid(o: Object, pre: seq<Directive>, l: string, body: seq<Directive>,
      tail: seq<Directive>)
    requires Wf(o) && AllData(pre + ([Globl(l), Label(l)] + body) + tail)
    requires Fresh(o, pre + ([Globl(l), Label(l)] + body) + tail)
    ensures var r, at := Layout(o, pre + ([Globl(l), Label(l)] + body) + tail), |o.contents[o.cur]| + |Payload(pre)|;
      BoundTo(r, l, Place(o.cur, at)) && HasBytes(r, o.cur, at, Payload(body))
  {
    hide Layout, Fresh, Payload, BytesOf, AllData, HasBytes;
    var a, b := pre + [Globl(l)], body + tail;
    assert pre + ([Globl(l), Label(l)] + body) + tail == a + [Label(l)] + b;
    AllDataAppend(a + [Label(l)], b);
    AllDataAppend(a, [Label(l)]);
    LabelLaid(o, a, l, b);
    PayloadAppend(pre, [Globl(l)]);
    PayloadOne(Globl(l));
    assert BytesOf(Globl(l)) == [] by { NoBytes(l); }
    PayloadAppend(body, tail);
    PrefixBytes(Layout(o, a + [Label(l)] + b), o.cur, |o.contents[o.cur]| + |Payload(pre)|, Payload(body),
      Payload(tail));
  }

  lemma {:induction false} NoBytes(l: string)
    ensures BytesOf(Globl(l)) == [] && BytesOf(Label(l)) == []
  {
  }

  // ---------- the blocks, entry by entry ----------

  lemma {:induction false} BlockPrefixes(libs: seq<Library>, i: nat)
    requires i <= |libs|
    ensures Names(libs[..i]) <= Names(libs) && Fnids(libs[..i]) <= Fnids(libs) && Fstubs(libs[..i]) <= Fstubs(libs)
    ensures Headers(libs[..i]) <= Headers(libs) && Trampolines(libs[..i]) <= Trampolines(libs)
  {
    hide NameDirectives, FnidDirectives, FstubDirectives, HeaderDirectives, Stubs;
    if i < |libs| {
      BlockPrefixes(libs[..|libs| - 1], i);
      assert libs[..|libs| - 1][..i] == libs[..i];
    } else {
      assert libs[..i] == libs;
    }
  }

  lemma {:induction false} FunctionPrefixes(fs: seq<Function>, k: nat)
    requires k <= |fs|
    ensures SlotDirectives(fs[..k]) <= SlotDirectives(fs) && Stubs(fs[..k]) <= Stubs(fs)
  {
    if k < |fs| {
      FunctionPrefixes(fs[..|fs| - 1], k);
      assert fs[..|fs| - 1][..k] == fs[..k];
    } else {
      assert fs[..k] == fs;
    }
  }

  /** Splits a list at a prefix. */
  function Rest(all: seq<Directive>, prefix: seq<Directive>): (r: seq<Directive>)
    requires prefix <= all
    ensures all == prefix + r
  {
    all[|prefix|..]
  }

  predicate NameLaid(o: Object, lib: Library) {
    var l := lib.name + "_name";
    l in o.labels && o.labels[l].sec == NAME_SECTION && HasBytes(o, NAME_SECTION, o.labels[l].off, TextBytes(lib.name))
  }

  function FnidBytes(fs: seq<Function>): (r: seq<byte>)
    ensures |r| == 4 * |fs|
  {
    if fs == [] then [] else FnidBytes(fs[..|fs| - 1]) + BE(fs[|fs| - 1].fnid, 4)
  }

  predicate FnidLaid(o: Object, lib: Library) {
    var l := lib.name + "_fnid_table";
    l in o.labels && o.labels[l].sec == FNID_SECTION
      && HasBytes(o, FNID_SECTION, o.labels[l].off, FnidBytes(lib.functions))
      && BoundTo(o, lib.name + "_fnid_table_end", Place(FNID_SECTION, o.labels[l].off + 4 * |lib.functions|))
  }

  /** The slots of `lib` start at byte `base` of its section. */
  predicate SlotsLaid(o: Object, lib: Library, base: nat) {
    var sec, n := FstubSection(lib), |lib.functions|;
    && BoundTo(o, lib.name + "_fstub_table", Place(sec, base))
    && BoundTo(o, lib.name + "_fstub_table_end", Place(sec, base + 4 * n))
    && HasBytes(o, sec, base, Zeros(4 * n))
    && (forall k :: 0 <= k < n ==> BoundTo(o, lib.functions[k].name + "_stub", Place(sec, base + 4 * k)))
  }

  ghost predicate FstubLaid(o: Object, lib: Library) {
    exists base :: SlotsLaid(o, lib, base)
  }

  /** The 44 bytes emitted for an import header. */
  function HeaderBytes(lib: Library): (r: seq<byte>)
    ensures |r| == 44
  {
    BE(0x2c000001, 4) + BE(lib.moduleId, 2) + BE(|lib.functions|, 2) + Zeros(36)
  }

  function HeaderTable(libs: seq<Library>): (r: seq<byte>)
    ensures |r| == 44 * |libs|
  {
    if libs == [] then [] else HeaderTable(libs[..|libs| - 1]) + HeaderBytes(libs[|libs| - 1])
  }

  predicate HeadersLaid(o: Object, libs: seq<Library>) {
    && HEADER_SECTION in o.contents && o.contents[HEADER_SECTION] == HeaderTable(libs)
    && forall i :: 0 <= i < |libs| ==> BoundTo(o, libs[i].name + "_prx_header", Place(HEADER_SECTION, 44 * i))
  }

  /** The trampoline of `f`: its label and its sixteen instructions. */
  predicate StubLaid(o: Object, f: Function) {
    && f.name in o.labels && o.labels[f.name].sec == TEXT_SECTION
    && TEXT_SECTION in o.contents && o.labels[f.name].off + 64 <= |o.contents[TEXT_SECTION]|
    && forall k :: 0 <= k < 16 ==> CodeAt(o, TEXT_SECTION, o.labels[f.name].off + 4 * k, StubInsns(f.name)[k])
  }

  // ---------- names ----------

  lemma {:induction false} NamesData(libs: seq<Library>)
    ensures AllData(Names(libs)) && AllData(Fnids(libs)) && AllData(Headers(libs))
  {
    hide AllData, NameDirectives, FnidDirectives, HeaderDirectives;
    if libs == [] { NoData(); } else {
      var init, lib := libs[..|libs| - 1], libs[|libs| - 1];
      NamesData(init);
      ItemsData(lib);
      AllDataAppend(Names(init), NameDirectives(lib));
      AllDataAppend(Fnids(init), FnidDirectives(lib));
      AllDataAppend(Headers(init), HeaderDirectives(lib));
    }
  }

  lemma {:induction false} NoData()
    ensures AllData([])
  {
  }

  lemma {:induction false} ItemsData(lib: Library)
    ensures AllData(NameDirectives(lib)) && AllData(FnidDirectives(lib)) && AllData(HeaderDirectives(lib))
  {
    hide FnidInts, SlotDirectives, Payload, FnidBytes;
    FnidIntsData(lib.functions);
  }

  lemma {:induction false} FnidIntsData(fs: seq<Function>)
    ensures AllData(FnidInts(fs)) && AllData(SlotDirectives(fs)) && Payload(FnidInts(fs)) == FnidBytes(fs)
    ensures Payload(SlotDirectives(fs)) == Zeros(4 * |fs|)
  {
    hide BE, Payload, BytesOf;
    if fs == [] {
      PayloadNone();
    } else {
      var init, f := fs[..|fs| - 1], fs[|fs| - 1];
      FnidIntsData(init);
      SlotPayload(init, f);
      PayloadAppend(FnidInts(init), [Int(f.fnid)]);
      PayloadOne(Int(f.fnid));
      WordBytes(f.fnid);
    }
  }

  lemma {:induction false} SlotPayload(init: seq<Function>, f: Function)
    requires Payload(SlotDirectives(init)) == Zeros(4 * |init|)
    ensures Payload(SlotDirectives(init) + [Globl(f.name + "_stub"), Label(f.name + "_stub"), Int(0)])
        == Zeros(4 * (|init| + 1))
  {
    hide Payload, SlotDirectives;
    var a, b := [Globl(f.name + "_stub")], [Label(f.name + "_stub")];
    assert [Globl(f.name + "_stub"), Label(f.name + "_stub"), Int(0)] == a + b + [Int(0)];
    PayloadAppend(SlotDirectives(init), a + b + [Int(0)]);
    PayloadAppend(a + b, [Int(0)]);
    PayloadAppend(a, b);
    PayloadOne(a[0]); PayloadOne(b[0]); PayloadOne(Int(0));
    ZeroBytes(4);
    assert Zeros(4 * |init|) + Zeros(4) == Zeros(4 * (|init| + 1));
  }

  lemma {:induction false} ZeroBytes(n: nat)
    ensures BE(0, n) == Zeros(n)
  {
    if n > 0 { ZeroBytes(n - 1); }
  }

  lemma {:induction false} NameEntry(o: Object, libs: seq<Library>, i: nat)
    requires Wf(o) && o.cur == NAME_SECTION && Fresh(o, Names(libs)) && i < |libs|
    ensures NameLaid(Layout(o, Names(libs)), libs[i])
  {
    hide Layout, Fresh, Payload, TextBytes, BytesOf, Names, AllData, HasBytes;
    var lib := libs[i];
    NamesData(libs);
    var rest := NameSplit(libs, i);
    EntryLaid(o, Names(libs[..i]), lib.name + "_name", [Asciz(lib.name)], rest);
    PayloadOne(Asciz(lib.name));
    AscizBytes(lib.name);
  }

  /** Where the name of library `i` is in its block. */
  lemma {:induction false} NameSplit(libs: seq<Library>, i: nat) returns (rest: seq<Directive>)
    requires i < |libs|
    ensures var l := libs[i].name + "_name";
      Names(libs) == Names(libs[..i]) + ([Globl(l), Label(l)] + [Asciz(libs[i].name)]) + rest
  {
    hide Names;
    BlockPrefixes(libs, i + 1);
    NamesStep(libs, i);
    rest := Rest(Names(libs), Names(libs[..i + 1]));
    var l := libs[i].name + "_name";
    assert NameDirectives(libs[i]) == [Globl(l), Label(l)] + [Asciz(libs[i].name)];
  }

  lemma {:induction false} AscizBytes(t: string)
    ensures BytesOf(Asciz(t)) == TextBytes(t)
  {
  }

  lemma {:induction false} PrefixBytes(o: Object, sec: string, off: nat, a: seq<byte>, b: seq<byte>)
    requires HasBytes(o, sec, off, a + b)
    ensures HasBytes(o, sec, off, a)
  {
    SliceOfSlice(o.contents[sec], off, off + |a + b|, 0, |a|);
    assert (a + b)[0..|a|] == a;
  }

  lemma {:induction false} NamesStep(libs: seq<Library>, i: nat)
    requires i < |libs|
    ensures Names(libs[..i + 1]) == Names(libs[..i]) + NameDirectives(libs[i])
    ensures Fnids(libs[..i + 1]) == Fnids(libs[..i]) + FnidDirectives(libs[i])
    ensures Fstubs(libs[..i + 1]) == Fstubs(libs[..i]) + FstubDirectives(libs[i])
    ensures Headers(libs[..i + 1]) == Headers(libs[..i]) + HeaderDirectives(libs[i])
    ensures Trampolines(libs[..i + 1]) == Trampolines(libs[..i]) + Stubs(libs[i].functions)
    ensures HeaderTable(libs[..i + 1]) == HeaderTable(libs[..i]) + HeaderBytes(libs[i])
  {
    hide NameDirectives, FnidDirectives, FstubDirectives, HeaderDirectives, Stubs, HeaderBytes;
    assert libs[..i + 1][..i] == libs[..i];
  }

  // ---------- FNID tables ----------

  lemma {:induction false} FnidEntry(o: Object, libs: seq<Library>, i: nat)
    requires Wf(o) && o.cur == FNID_SECTION && Fresh(o, Fnids(libs)) && i < |libs|
    ensures FnidLaid(Layout(o, Fnids(libs)), libs[i])
  {
    hide Layout, Fresh, Payload, Fnids, FnidInts, FnidBytes, AllData, HasBytes;
    var lib := libs[i];
    NamesData(libs);
    FnidIntsData(lib.functions);
    var rest := FnidSplit(libs, i);
    var pre, ints, l, e := Fnids(libs[..i]), FnidInts(lib.functions), lib.name + "_fnid_table", lib.name + "_fnid_table_end";
    var end := [Globl(e), Label(e)];
    EntryLaid(o, pre, l, ints, end + rest);
    var front := pre + ([Globl(l), Label(l)] + ints);
    assert front + (end + []) + rest == pre + ([Globl(l), Label(l)] + ints) + (end + rest);
    EntryLaid(o, front, e, [], rest);
    PayloadAppend(pre, [Globl(l), Label(l)] + ints);
    PayloadAppend([Globl(l), Label(l)], ints);
    HeadPayload(l);
  }

  /** Where the FNID table of library `i` is in its block. */
  lemma {:induction false} FnidSplit(libs: seq<Library>, i: nat) returns (rest: seq<Directive>)
    requires i < |libs|
    ensures var l, e := libs[i].name + "_fnid_table", libs[i].name + "_fnid_table_end";
      Fnids(libs)
        == Fnids(libs[..i]) + ([Globl(l), Label(l)] + FnidInts(libs[i].functions)) + ([Globl(e), Label(e)] + rest)
  {
    hide Fnids, FnidInts;
    var lib := libs[i];
    BlockPrefixes(libs, i + 1);
    NamesStep(libs, i);
    var pre := Fnids(libs[..i]);
    rest := Rest(Fnids(libs), Fnids(libs[..i + 1]));
    var l, end := lib.name + "_fnid_table", [Globl(lib.name + "_fnid_table_end"), Label(lib.name + "_fnid_table_end")];
    assert FnidDirectives(lib) == [Globl(l), Label(l)] + FnidInts(lib.functions) + end;
  }

  // ---------- import headers ----------

  lemma {:induction false} HeaderPayload(lib: Library)
    ensures Payload(HeaderDirectives(lib)) == HeaderBytes(lib)
  {
    hide Payload, BytesOf;
    var l := lib.name + "_prx_header";
    var a, b, c, d := [Globl(l), Label(l)], [Int(0x2c000001)], [Short(lib.moduleId)], [Short(|lib.functions|)];
    var z := seq(9, _ => Int(0));
    assert HeaderDirectives(lib) == a + b + c + d + z;
    HeadPayload(l);
    PayloadAppend(a, b); PayloadAppend(a + b, c); PayloadAppend(a + b + c, d); PayloadAppend(a + b + c + d, z);
    PayloadOne(b[0]); PayloadOne(c[0]); PayloadOne(d[0]);
    ZeroInts(z);
    assert BytesOf(b[0]) == BE(0x2c000001, 4) && BytesOf(c[0]) == BE(lib.moduleId, 2) && BytesOf(d[0]) == BE(|lib.functions|, 2) by {
      WordBytes(0x2c000001); HalfBytes(lib.moduleId); HalfBytes(|lib.functions|);
    }
  }

  lemma {:induction false} WordBytes(v: nat)
    ensures BytesOf(Int(v)) == BE(v, 4)
  {
  }

  lemma {:induction false} HalfBytes(v: nat)
    ensures BytesOf(Short(v)) == BE(v, 2)
  {
  }

  lemma {:induction false} ZeroInts(ds: seq<Directive>)
    requires forall i :: 0 <= i < |ds| ==> ds[i] == Int(0)
    ensures Payload(ds) == Zeros(4 * |ds|)
  {
    hide BE;
    if ds != [] {
      ZeroInts(ds[..|ds| - 1]);
      ZeroBytes(4);
    }
  }

  lemma {:induction false} HeaderTablePayload(libs: seq<Library>)
    ensures Payload(Headers(libs)) == HeaderTable(libs)
  {
    hide Payload, HeaderDirectives, HeaderBytes;
    if libs == [] {
      assert Payload([]) == [] by { NoPayload(); }
    } else {
      var init, lib := libs[..|libs| - 1], libs[|libs| - 1];
      HeaderTablePayload(init);
      HeaderPayload(lib);
      PayloadAppend(Headers(init), HeaderDirectives(lib));
    }
  }

  lemma {:induction false} NoPayload()
    ensures Payload([]) == []
  {
  }

  lemma {:induction false} HeaderEntry(o: Object, libs: seq<Library>, i: nat)
    requires Wf(o) && o.cur == HEADER_SECTION && Fresh(o, Headers(libs)) && i < |libs|
    ensures BoundTo(Layout(o, Headers(libs)), libs[i].name + "_prx_header",
        Place(HEADER_SECTION, |o.contents[HEADER_SECTION]| + 44 * i))
  {
    hide Layout, Fresh, Payload, Headers, AllData, HasBytes, HeaderBytes;
    var lib := libs[i];
    BlockPrefixes(libs, i + 1);
    NamesData(libs);
    NamesStep(libs, i);
    HeaderTablePayload(libs[..i]);
    var pre, rest := Headers(libs[..i]), Rest(Headers(libs), Headers(libs[..i + 1]));
    var l := lib.name + "_prx_header";
    var body := HeaderDirectives(lib)[2..];
    assert HeaderDirectives(lib) == [Globl(l), Label(l)] + body;
    EntryLaid(o, pre, l, body, rest);
  }

  // ---------- stub slots ----------

  lemma {:induction false} SlotEntry(o: Object, a: seq<Directive>, fs: seq<Function>, b: seq<Directive>, k: nat)
    requires Wf(o) && AllData(a) && AllData(b) && Fresh(o, a + SlotDirectives(fs) + b) && k < |fs|
    ensures BoundTo(Layout(o, a + SlotDirectives(fs) + b), fs[k].name + "_stub",
        Place(o.cur, |o.contents[o.cur]| + |Payload(a)| + 4 * k))
  {
    hide Layout, Fresh, Payload, AllData, HasBytes;
    FunctionPrefixes(fs, k + 1);
    FnidIntsData(fs);
    FnidIntsData(fs[..k]);
    assert fs[..k + 1][..k] == fs[..k];
    var l := fs[k].name + "_stub";
    var rest := Rest(SlotDirectives(fs), SlotDirectives(fs[..k + 1]));
    var pre, tail := a + SlotDirectives(fs[..k]), rest + b;
    assert SlotDirectives(fs) == SlotDirectives(fs[..k]) + [Globl(l), Label(l), Int(0)] + rest;
    assert a + SlotDirectives(fs) + b == pre + ([Globl(l), Label(l)] + [Int(0)]) + tail;
    AllDataAppend(a, SlotDirectives(fs));
    AllDataAppend(a + SlotDirectives(fs), b);
    EntryLaid(o, pre, l, [Int(0)], tail);
    PayloadAppend(a, SlotDirectives(fs[..k]));
  }

  /** One library's slot section. */
  lemma {:induction false} FstubParts(lib: Library)
    ensures var ft, fe := lib.name + "_fstub_table", lib.name + "_fstub_table_end";
      FstubDirectives(lib) == [Section(FstubSection(lib), "aw"), Align(2)]
        + ([Globl(ft), Label(ft)] + SlotDirectives(lib.functions) + [Globl(fe), Label(fe)])
  {
    hide SlotDirectives;
  }

  lemma {:induction false} FstubItem(o: Object, lib: Library)
    requires Wf(o) && Fresh(o, FstubDirectives(lib))
    ensures FstubLaid(Layout(o, FstubDirectives(lib)), lib)
  {
    hide Layout, Fresh, Payload, AllData, HasBytes, SlotDirectives, Pad, FstubDirectives, Step;
    var fs, ft, fe := lib.functions, lib.name + "_fstub_table", lib.name + "_fstub_table_end";
    var enter := [Section(FstubSection(lib), "aw"), Align(2)];
    var head, end := [Globl(ft), Label(ft)], [Globl(fe), Label(fe)];
    var body := head + SlotDirectives(fs) + end;
    assert FstubDirectives(lib) == enter + body by { FstubParts(lib); }
    Sequence(o, enter, body);
    var m := Layout(o, enter);
    EnteredSection(o, FstubSection(lib), "aw");
    var r, base := Layout(m, body), |m.contents[m.cur]|;
    FnidIntsData(fs);
    HeadData(ft); HeadData(fe);
    AllDataAppend(head, SlotDirectives(fs));
    AllDataAppend(head + SlotDirectives(fs), end);
    assert body == [] + (head + SlotDirectives(fs)) + end;
    EntryLaid(m, [], ft, SlotDirectives(fs), end);
    NoPayload();
    assert body == (head + SlotDirectives(fs)) + (end + []) + [];
    EntryLaid(m, head + SlotDirectives(fs), fe, [], []);
    PayloadAppend(head, SlotDirectives(fs));
    assert Payload(head) == [] by { HeadPayload(ft); }
    forall k | 0 <= k < |fs| ensures BoundTo(r, fs[k].name + "_stub", Place(FstubSection(lib), base + 4 * k)) {
      SlotEntry(m, head, fs, end, k);
    }
    assert SlotsLaid(r, lib, base);
  }

  lemma {:induction false} HeadData(l: string)
    ensures AllData([Globl(l), Label(l)])
  {
  }

  lemma {:induction false} HeadPayload(l: string)
    ensures Payload([Globl(l), Label(l)]) == []
  {
    hide Payload;
    assert [Globl(l), Label(l)] == [Globl(l)] + [Label(l)];
    PayloadAppend([Globl(l)], [Label(l)]);
    PayloadOne(Globl(l)); PayloadOne(Label(l));
  }

  lemma {:induction false} EnteredSection(o: Object, name: string, flags: string)
    requires o.cur in o.contents
    ensures Layout(o, [Section(name, flags), Align(2)]).cur == name
  {
    hide Pow2;
    LayoutTwo(o, Section(name, flags), Align(2));
  }

  lemma {:induction false} FstubEntries(o: Object, libs: seq<Library>)
    requires Wf(o) && Fresh(o, Fstubs(libs))
    ensures forall i :: 0 <= i < |libs| ==> FstubLaid(Layout(o, Fstubs(libs)), libs[i])
  {
    hide Layout, Fresh, FstubDirectives, FstubLaid;
    if libs != [] {
      var init, lib := libs[..|libs| - 1], libs[|libs| - 1];
      Sequence(o, Fstubs(init), FstubDirectives(lib));
      FstubEntries(o, init);
      var m := Layout(o, Fstubs(init));
      FstubItem(m, lib);
      forall i | 0 <= i < |init| ensures FstubLaid(Layout(m, FstubDirectives(lib)), init[i]) {
        FstubLaidExtends(m, Layout(m, FstubDirectives(lib)), init[i]);
      }
    }
  }

  // ---------- trampolines ----------

  lemma {:induction false} StubEntries(o: Object, fs: seq<Function>)
    requires Wf(o) && o.cur == TEXT_SECTION && Fresh(o, Stubs(fs))
    ensures Layout(o, Stubs(fs)).cur == TEXT_SECTION
    ensures forall k :: 0 <= k < |fs| ==> StubLaid(Layout(o, Stubs(fs)), fs[k])
  {
    hide Layout, Fresh, StubLaid, Step;
    if fs == [] {
      LayoutNone(o);
    } else {
      var init, f := fs[..|fs| - 1], fs[|fs| - 1];
      Sequence(o, Stubs(init), [DefineStub(f.name)]);
      StubEntries(o, init);
      var m := Layout(o, Stubs(init));
      LayoutOne(m, DefineStub(f.name));
      StubItem(m, f);
      forall k | 0 <= k < |init| ensures StubLaid(Step(m, DefineStub(f.name)), init[k]) {
        StubLaidExtends(m, Step(m, DefineStub(f.name)), init[k]);
      }
    }
  }

  lemma {:induction false} LayoutNone(o: Object)
    requires o.cur in o.contents
    ensures Layout(o, []) == o
  {
  }

  lemma {:induction false} StubItem(m: Object, f: Function)
    requires Wf(m) && m.cur == TEXT_SECTION && Fresh(m, [DefineStub(f.name)])
    ensures StubLaid(Step(m, DefineStub(f.name)), f) && Step(m, DefineStub(f.name)).cur == TEXT_SECTION
  {
    hide Step, StubInsns, Pad, CodeAt;
    G.LabelsOneOf([DefineStub(f.name)], 0);
    assert f.name in Labels([DefineStub(f.name)]);
    StubExtends(m, f.name);
    PadExtends(m, 2);
  }

  lemma {:induction false} TrampolineEntries(o: Object, libs: seq<Library>)
    requires Wf(o) && o.cur == TEXT_SECTION && Fresh(o, Trampolines(libs))
    ensures Layout(o, Trampolines(libs)).cur == TEXT_SECTION
    ensures forall i, k :: 0 <= i < |libs| && 0 <= k < |libs[i].functions| ==> StubLaid(Layout(o, Trampolines(libs)), libs[i].functions[k])
  {
    hide Layout, Fresh, StubLaid, Stubs;
    if libs == [] {
      LayoutNone(o);
    } else {
      var init, fs := libs[..|libs| - 1], libs[|libs| - 1].functions;
      Sequence(o, Trampolines(init), Stubs(fs));
      TrampolineEntries(o, init);
      var m := Layout(o, Trampolines(init));
      StubEntries(m, fs);
      forall i, k | 0 <= i < |init| && 0 <= k < |init[i].functions| ensures StubLaid(Layout(m, Stubs(fs)), init[i].functions[k]) {
        StubLaidExtends(m, Layout(m, Stubs(fs)), init[i].functions[k]);
      }
    }
  }

  // ---------- what later directives keep ----------

  lemma {:induction false} NameLaidExtends(o: Object, p: Object, lib: Library)
    requires Extends(o, p) && NameLaid(o, lib)
    ensures NameLaid(p, lib)
  {
    hide TextBytes, HasBytes;
    HasBytesExtends(o, p, NAME_SECTION, o.labels[lib.name + "_name"].off, TextBytes(lib.name));
  }

  lemma {:induction false} FnidLaidExtends(o: Object, p: Object, lib: Library)
    requires Extends(o, p) && FnidLaid(o, lib)
    ensures FnidLaid(p, lib)
  {
    hide FnidBytes, HasBytes;
    HasBytesExtends(o, p, FNID_SECTION, o.labels[lib.name + "_fnid_table"].off, FnidBytes(lib.functions));
  }

  lemma {:induction false} FstubLaidExtends(o: Object, p: Object, lib: Library)
    requires Extends(o, p) && FstubLaid(o, lib)
    ensures FstubLaid(p, lib)
  {
    hide HasBytes;
    var base :| SlotsLaid(o, lib, base);
    HasBytesExtends(o, p, FstubSection(lib), base, Zeros(4 * |lib.functions|));
    assert SlotsLaid(p, lib, base);
  }

  lemma {:induction false} StubLaidExtends(o: Object, p: Object, f: Function)
    requires Extends(o, p) && StubLaid(o, f)
    ensures StubLaid(p, f)
  {
    hide StubInsns;
    forall k | 0 <= k < 16 ensures CodeAt(p, TEXT_SECTION, p.labels[f.name].off + 4 * k, StubInsns(f.name)[k]) {
      assert CodeAt(o, TEXT_SECTION, o.labels[f.name].off + 4 * k, StubInsns(f.name)[k]);
    }
  }
}
