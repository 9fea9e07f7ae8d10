/** What each pass leaves in the file, byte offset by byte offset and in the
    numbers of the formats it writes (System V gABI chapters 4 and 5; 64-bit
    PowerPC ELF ABI Supplement 1.9, section 3.2.5). */
module PatchedBytes {
  import opened Bytes
  import opened Wrappers
  import opened Lists
  import opened Elf
  import opened Passes
  import opened ProgramHeaders
  import opened Locality
  import opened Independence
  import opened Binding
  import opened Descriptors
  import Rerun

  // ---------- OS/ABI ----------

  lemma {:induction false} OsAbiByte(g: Image)
    requires |g.data| >= 64
    ensures var r := OsAbi(g);
      && r == g.(data := r.data) && |r.data| == |g.data| && r.data[7] == 102
      && forall i :: 0 <= i < |g.data| && i != 7 ==> r.data[i] == g.data[i]
  {
  }

  // ---------- program headers ----------

  /** How many of the first `n` headers have kind 1 (PT_LOAD). */
  function Loads(d: seq<byte>, phoff: nat, n: nat): (r: nat)
    requires phoff + 56 * n <= |d|
    ensures r <= n
  {
    if n == 0 then 0
    else
      var t := phoff + 56 * (n - 1);
      Loads(d, phoff, n - 1) + if U32(d[t..t + 4]) == 1 then 1 else 0
  }

  lemma {:induction false} KeptCount(d: seq<byte>, phoff: nat, n: nat)
    requires phoff + 56 * n <= |d|
    ensures |Kept(d, phoff, n)| == Loads(d, phoff, n)
  {
    hide U32, Reflag;
    if n > 0 {
      KeptCount(d, phoff, n - 1);
      var t := phoff + 56 * (n - 1);
      SliceOfSlice(d, t, t + 56, 0, 4);
    }
  }

  lemma {:induction false} KeptPlace(d: seq<byte>, phoff: nat, n: nat, i: nat)
    requires phoff + 56 * n <= |d| && i < n
    requires var t := phoff + 56 * i; U32(d[t..t + 4]) == 1
    ensures var k := Loads(d, phoff, i);
      k < |Kept(d, phoff, n)| && Kept(d, phoff, n)[k] == Reflag(SlotAt(d, phoff, i))
  {
    hide U32, Reflag;
    KeptCount(d, phoff, i);
    if i == n - 1 {
      var t := phoff + 56 * i;
      SliceOfSlice(d, t, t + 56, 0, 4);
    } else {
      KeptPlace(d, phoff, n - 1, i);
    }
  }

  /** Header `i` has kind 1 (PT_LOAD). */
  predicate IsLoad(g: Image, i: nat)
    requires OldTableFits(g) && i < g.phnum
  {
    var t := g.phoff + 56 * i;
    U32(g.data[t..t + 4]) == 1
  }

  /** The bytes of slot `j` of the table at `phoff` are `was` with these flags. */
  predicate SlotIs(d: seq<byte>, t: nat, was: seq<byte>, flags: u32)
    requires t + 56 <= |d| && |was| == 56
  {
    d[t..t + 4] == was[0..4] && U32(d[t + 4..t + 8]) == flags && d[t + 8..t + 56] == was[8..56]
  }

  /** The `i`-th old header is the new header whose number is the number of PT_LOAD
      headers before it, with the flags of executable, writable or other segments;
      execution is looked at first. */
  predicate KeptIs(g: Image, r: seq<byte>, i: nat)
    requires OldTableFits(g) && i < g.phnum && |r| == |g.data|
  {
    var t, at := g.phoff + 56 * i, g.phoff + 56 * Loads(g.data, g.phoff, i);
    var flags := U32(g.data[t + 4..t + 8]);
    && at + 56 <= |r|
    && SlotIs(r, at, g.data[t..t + 56],
         if flags % 2 == 1 then 0x0040_0005 else if flags / 2 % 2 == 1 then 0x0060_0006 else flags)
  }

  /** Every old PT_LOAD header is kept. */
  lemma {:induction false} KeptHeader(g: Image, i: nat)
    requires |g.data| >= 64 && TableFits(g) && TableClearOfHeader(g) && i < g.phnum
    requires IsLoad(g, i)
    ensures Loads(g.data, g.phoff, i) < |NewSlots(g)| && KeptIs(g, Phdrs(g).data, i)
  {
    hide U32, BE, Kept, Injected, Phdrs, SlotAt;
    var k := Loads(g.data, g.phoff, i);
    KeptPlace(g.data, g.phoff, g.phnum, i);
    NewSlotAt(g, k);
    ReflagBytes(g.data, g.phoff, i, Phdrs(g).data, k);
  }

  lemma {:induction false} ReflagBytes(d: seq<byte>, phoff: nat, i: nat, r: seq<byte>, k: nat)
    requires phoff + 56 * (i + 1) <= |d| && phoff + 56 * (k + 1) <= |r| && SlotAt(r, phoff, k) == Reflag(SlotAt(d, phoff, i))
    ensures var t, at := phoff + 56 * i, phoff + 56 * k;
      var flags := U32(d[t + 4..t + 8]);
      SlotIs(r, at, d[t..t + 56],
        if flags % 2 == 1 then 0x0040_0005 else if flags / 2 % 2 == 1 then 0x0060_0006 else flags)
  {
    hide U32, BE;
    var t, at, s := phoff + 56 * i, phoff + 56 * k, SlotAt(d, phoff, i);
    var f := SonyFlags(U32(s[4..8]));
    SliceOfSlice(d, t, t + 56, 4, 8);
    SliceOfSlice(r, at, at + 56, 0, 4); SliceOfSlice(r, at, at + 56, 4, 8); SliceOfSlice(r, at, at + 56, 8, 56);
    assert Reflag(s)[0..4] == s[0..4] && Reflag(s)[4..8] == BE(f, 4) && Reflag(s)[8..56] == s[8..56];
    FieldRoundTrip32(f);
  }

  /** The header at `t` describes a parameter section. */
  predicate ParamAt(d: seq<byte>, t: nat, kind: u32, s: Section, minAlign: u64)
    requires t + 56 <= |d|
  {
    && U32(d[t..t + 4]) == kind && U32(d[t + 4..t + 8]) == 0
    && U64(d[t + 8..t + 16]) == s.offset && U64(d[t + 16..t + 24]) == s.addr && U64(d[t + 24..t + 32]) == s.addr
    && U64(d[t + 32..t + 40]) == s.size && U64(d[t + 40..t + 48]) == s.size
    && U64(d[t + 48..t + 56]) == if s.addralign >= minAlign then s.addralign else minAlign
  }

  /** How many headers the new table has. */
  function NewCount(g: Image): nat
    requires OldTableFits(g)
  {
    Loads(g.data, g.phoff, g.phnum)
    + (if ".sys_proc_param" in g.sections then 1 else 0) + (if ".sys_proc_prx_param" in g.sections then 1 else 0)
  }

  lemma {:induction false} NewCountIs(g: Image)
    requires OldTableFits(g)
    ensures |NewSlots(g)| == NewCount(g)
  {
    hide Kept, ParamSlot;
    KeptCount(g.data, g.phoff, g.phnum);
  }

  /** Behind the kept headers: one for the process parameters, then one for the
      PRX parameters, of the sections that exist; the number of all of them in
      e_phnum; and zeroes in the old slots that are left. */
  predicate AddedAre(g: Image, r: seq<byte>)
    requires OldTableFits(g) && |r| == |g.data| >= 64
  {
    var t := g.phoff + 56 * Loads(g.data, g.phoff, g.phnum);
    && g.phoff + 56 * NewCount(g) <= |r|
    && var u := if ".sys_proc_param" in g.sections then t + 56 else t;
    && (".sys_proc_param" in g.sections ==> ParamAt(r, t, 0x6000_0001, g.sections[".sys_proc_param"], 8))
    && (".sys_proc_prx_param" in g.sections ==> ParamAt(r, u, 0x6000_0002, g.sections[".sys_proc_prx_param"], 4))
    && U16(r[56..58]) as int == NewCount(g) % 0x1_0000
    && (forall i :: g.phoff + 56 * NewCount(g) <= i < g.phoff + 56 * g.phnum ==> r[i] == 0)
  }

  lemma {:induction false} AddedHeaders(g: Image)
    requires |g.data| >= 64 && TableFits(g) && TableClearOfHeader(g)
    ensures AddedAre(g, Phdrs(g).data)
  {
    hide U32, U64, U16, BE, Kept, Phdrs, SlotAt, ParamSlot, Zeros;
    var r, k := Phdrs(g).data, Loads(g.data, g.phoff, g.phnum);
    KeptCount(g.data, g.phoff, g.phnum);
    NewCountIs(g);
    if ".sys_proc_param" in g.sections {
      NewSlotAt(g, k);
      ParamBytes(r, g.phoff, k, PT_SCE_PROC_PARAM, g.sections[".sys_proc_param"], 8);
    }
    if ".sys_proc_prx_param" in g.sections {
      var j := if ".sys_proc_param" in g.sections then k + 1 else k;
      NewSlotAt(g, j);
      ParamBytes(r, g.phoff, j, PT_SCE_PROC_PRX_PARAM, g.sections[".sys_proc_prx_param"], 4);
    }
    HeaderCount(g);
    forall i | g.phoff + 56 * NewCount(g) <= i < g.phoff + 56 * g.phnum ensures r[i] == 0 {
      var j := (i - g.phoff) / 56;
      NewSlotAt(g, j);
      ZeroSlot(r, g.phoff, j, i);
    }
  }

  lemma {:induction false} ParamBytes(r: seq<byte>, phoff: nat, j: nat, kind: u32, s: Section, minAlign: u64)
    requires phoff + 56 * (j + 1) <= |r| && SlotAt(r, phoff, j) == ParamSlot(kind, s, minAlign)
    ensures ParamAt(r, phoff + 56 * j, kind, s, minAlign)
  {
    hide U32, U64, BE;
    var t, p := phoff + 56 * j, ParamPhdr(kind, s, minAlign);
    assert SlotAt(r, phoff, j) == ProgramHeaders.Encode(p);
    EncodeFields(p);
    SliceOfSlice(r, t, t + 56, 0, 4); SliceOfSlice(r, t, t + 56, 4, 8); SliceOfSlice(r, t, t + 56, 8, 16);
    SliceOfSlice(r, t, t + 56, 16, 24); SliceOfSlice(r, t, t + 56, 24, 32); SliceOfSlice(r, t, t + 56, 32, 40);
    SliceOfSlice(r, t, t + 56, 40, 48); SliceOfSlice(r, t, t + 56, 48, 56);
    FieldRoundTrip32(kind); FieldRoundTrip32(0); FieldRoundTrip64(s.offset); FieldRoundTrip64(s.addr);
    FieldRoundTrip64(s.size); FieldRoundTrip64(p.align);
  }

  lemma {:induction false} HeaderCount(g: Image)
    requires |g.data| >= 64 && TableFits(g)
    ensures U16(Phdrs(g).data[56..58]) == NewPhnum(g)
  {
    hide BE, NewTable, NewSlots, U16;
    PutRead(Put(g.data, g.phoff, NewTable(g)), 56, BE(NewPhnum(g), 2));
    FieldRoundTrip16(NewPhnum(g));
  }

  lemma {:induction false} ZeroSlot(r: seq<byte>, phoff: nat, j: nat, i: nat)
    requires phoff + 56 * (j + 1) <= |r| && SlotAt(r, phoff, j) == Zeros(56)
    requires phoff + 56 * j <= i < phoff + 56 * (j + 1)
    ensures r[i] == 0
  {
    var t := phoff + 56 * j;
    assert r[i] == r[t..t + 56][i - t];
  }

  /** The whole new table. */
  lemma {:induction false} HeadersDone(g: Image)
    requires |g.data| >= 64 && TableFits(g) && TableClearOfHeader(g)
    ensures AddedAre(g, Phdrs(g).data)
    ensures forall i :: 0 <= i < g.phnum && IsLoad(g, i) ==> KeptIs(g, Phdrs(g).data, i)
  {
    hide Phdrs, Kept, Injected, AddedAre, KeptIs, IsLoad;
    AddedHeaders(g);
    forall i | 0 <= i < g.phnum && IsLoad(g, i) ensures KeptIs(g, Phdrs(g).data, i) { KeptHeader(g, i); }
  }

  // ---------- import headers ----------

  /** The `_prx_header` symbol of `lib` starts in `.lib.stub`, which has room for a
      header, and the 44 bytes there are in the file. */
  predicate BindsLib(g: Image, lib: string) {
    && ".lib.stub" in g.sections && lib + "_prx_header" in g.symbols
    && var s, a := g.sections[".lib.stub"], g.symbols[lib + "_prx_header"];
    s.size >= 44 && s.addr <= a < s.addr + s.size && s.offset + (a - s.addr) + 44 <= |g.data|
  }

  /** Where its header is in the file. */
  function HeaderAt(g: Image, lib: string): (at: nat)
    requires BindsLib(g, lib)
    ensures at + 44 <= |g.data|
  {
    g.sections[".lib.stub"].offset + (g.symbols[lib + "_prx_header"] - g.sections[".lib.stub"].addr)
  }

  /** The headers of two libraries do not overlap. */
  ghost predicate HeadersApart(g: Image) {
    forall a, b :: BindsLib(g, a) && BindsLib(g, b) && a != b ==>
      HeaderAt(g, a) + 44 <= HeaderAt(g, b) || HeaderAt(g, b) + 44 <= HeaderAt(g, a)
  }

  lemma {:induction false} BindsLibIs(g: Image, h: Header)
    requires HasStubs(g) && IsHeader(g.symbols, h)
    ensures BindsLib(g, h.lib) <==> Binds(g.sections[LIB_STUB], |g.data|, h)
    ensures BindsLib(g, h.lib) ==> HeaderAt(g, h.lib) == HeaderOffset(g.sections[LIB_STUB], h)
  {
  }

  lemma {:induction false} NoRoom(g: Image)
    ensures HasStubs(g) <==> ".lib.stub" in g.sections && g.sections[".lib.stub"].size >= 44
  {
  }

  /** A pointer field takes the low half of the symbol when that is not zero. */
  predicate PointerIs(r: seq<byte>, d: seq<byte>, at: nat, symbols: map<string, u64>, name: string)
    requires at + 4 <= |r| == |d|
  {
    if name in symbols && symbols[name] % 0x1_0000_0000 != 0
    then U32(r[at..at + 4]) as int == symbols[name] % 0x1_0000_0000
    else r[at..at + 4] == d[at..at + 4]
  }

  /** The fields of one header: three pointers, and the length of the slot table in
      words when no count is stored and both its symbols exist. */
  predicate FieldsAre(r: seq<byte>, d: seq<byte>, at: nat, symbols: map<string, u64>, lib: string)
    requires at + 44 <= |r| == |d|
  {
    && PointerIs(r, d, at + 16, symbols, lib + "_name")
    && PointerIs(r, d, at + 20, symbols, lib + "_fnid_table")
    && PointerIs(r, d, at + 24, symbols, lib + "_fstub_table")
    && (if U16(d[at + 6..at + 8]) == 0 && lib + "_fstub_table" in symbols && lib + "_fstub_table_end" in symbols
        then
          var start, end := symbols[lib + "_fstub_table"], symbols[lib + "_fstub_table_end"];
          U16(r[at + 6..at + 8]) as int == (if end >= start then (end - start) / 4 % 0x1_0000 else 0)
        else U16(r[at + 6..at + 8]) == U16(d[at + 6..at + 8]))
  }

  /** What binding makes of one header. */
  predicate HeaderIs(r: seq<byte>, d: seq<byte>, at: nat, symbols: map<string, u64>, lib: string)
    requires at + 44 <= |r| == |d|
  {
    && FieldsAre(r, d, at, symbols, lib)
    && (forall i :: at <= i < at + 44 && !(at + 6 <= i < at + 8) && !(at + 16 <= i < at + 28) ==> r[i] == d[i])
  }

  lemma {:induction false} BindHeaderIs(symbols: map<string, u64>, lib: string, at: nat, d: seq<byte>)
    requires at + 44 <= |d|
    ensures HeaderIs(BindHeader(symbols, lib, at, d), d, at, symbols, lib)
  {
    hide BindHeader, U16, U32, BE;
    BindHeaderFields(symbols, lib, at, d);
    BindHeaderFrame(symbols, lib, at, d);
    FieldRoundTrip32(Pointer(symbols, lib + "_name"));
    FieldRoundTrip32(Pointer(symbols, lib + "_fnid_table"));
    FieldRoundTrip32(Pointer(symbols, lib + "_fstub_table"));
  }

  /** After the pass every library whose header is bound has the fields its
      symbols give, whatever the order of the map. */
  lemma {:induction false} BoundHeader(g: Image, order: seq<string>, lib: string)
    requires Enumerates(order, g.symbols) && HeadersApart(g) && BindsLib(g, lib)
    ensures HeaderIs(LibStubs(g, order).data, g.data, HeaderAt(g, lib), g.symbols, lib)
  {
    hide BindAll, StubHeaders, BindHeader, U16, U32, HeadersApart, HeaderIs;
    NoRoom(g);
    var s, hs, h := g.sections[LIB_STUB], StubHeaders(g, order), Header(lib, g.symbols[lib + "_prx_header"]);
    StubHeadersAre(g, order);
    BindsLibIs(g, h);
    ApartSpaced(g, hs);
    var r, b, at := LibStubs(g, order).data, BindHeader(g.symbols, lib, HeaderAt(g, lib), g.data), HeaderAt(g, lib);
    forall i | at <= i < at + 44 ensures r[i] == b[i] { BindAllAt(g.symbols, s, hs, g.data, h, i); }
    BindHeaderIs(g.symbols, lib, at, g.data);
    SameHeaderIs(r, b, g.data, at, g.symbols, lib);
  }

  lemma {:induction false} ApartSpaced(g: Image, hs: seq<Header>)
    requires HasStubs(g) && HeadersApart(g) && forall h :: h in hs ==> IsHeader(g.symbols, h)
    ensures Spaced(g.sections[LIB_STUB], |g.data|, hs)
  {
    hide BindsLib, HeaderAt, Binds;
    var s := g.sections[LIB_STUB];
    forall a, b | a in hs && b in hs && Binds(s, |g.data|, a) && Binds(s, |g.data|, b) && a != b
      ensures a.addr + HEADER_SIZE <= b.addr || b.addr + HEADER_SIZE <= a.addr
    {
      BindsLibIs(g, a);
      BindsLibIs(g, b);
      BindsInside(s, |g.data|, a);
      BindsInside(s, |g.data|, b);
    }
  }

  lemma {:induction false} BindsInside(s: Section, len: nat, h: Header)
    requires Binds(s, len, h)
    ensures s.addr <= h.addr && HeaderOffset(s, h) as int == s.offset as int + h.addr as int - s.addr as int
  {
  }

  lemma {:induction false} SameHeaderIs(r: seq<byte>, b: seq<byte>, d: seq<byte>, at: nat, symbols: map<string, u64>,
      lib: string)
    requires at + 44 <= |r| == |b| == |d| && (forall i :: at <= i < at + 44 ==> r[i] == b[i])
    requires HeaderIs(b, d, at, symbols, lib)
    ensures HeaderIs(r, d, at, symbols, lib)
  {
    hide U16, U32;
    assert r[at + 6..at + 8] == b[at + 6..at + 8] && r[at + 16..at + 20] == b[at + 16..at + 20];
    assert r[at + 20..at + 24] == b[at + 20..at + 24] && r[at + 24..at + 28] == b[at + 24..at + 28];
  }

  /** No other byte changes: none at all without a header to bind. */
  lemma {:induction false} UnboundByte(g: Image, order: seq<string>, i: nat)
    requires Enumerates(order, g.symbols) && i < |g.data|
    requires forall lib :: BindsLib(g, lib) ==>
      var at := HeaderAt(g, lib); !(at + 6 <= i < at + 8) && !(at + 16 <= i < at + 28)
    ensures LibStubs(g, order).data[i] == g.data[i]
  {
    hide BindAll, StubHeaders, BindsLib, HeaderAt;
    if HasStubs(g) {
      var s, hs := g.sections[LIB_STUB], StubHeaders(g, order);
      StubHeadersAre(g, order);
      BindAllFrame(g.symbols, s, hs, g.data);
      if StubField(s, |g.data|, hs, i) {
        var h :| h in hs && Binds(s, |g.data|, h) && HeaderField(HeaderOffset(s, h), i);
        BindsLibIs(g, h);
        assert false;
      }
    }
  }

  // ---------- function descriptors ----------

  /** How many descriptors `.opd` has. */
  function DescriptorCount(g: Image): nat {
    if ".opd" in g.sections then g.sections[".opd"].size / 24 else 0
  }

  /** The pass fails exactly when the section says more than the file holds. */
  lemma {:induction false} DescriptorsFit(g: Image)
    ensures OpdFits(g) <==>
      DescriptorCount(g) == 0 || g.sections[".opd"].offset + 24 * DescriptorCount(g) <= |g.data|
    ensures OpdCount(g) == DescriptorCount(g)
  {
  }

  /** The program starts at descriptor `i`, or it is that of `_start`. */
  predicate StartsAt(g: Image, i: nat, func: u64)
    requires ".opd" in g.sections
  {
    || g.sections[".opd"].addr + 24 * i == g.entry
    || ("_start" in g.symbols && g.symbols["_start"] != 0 && func == g.symbols["_start"])
  }

  /** Descriptor `i` after the pass, word by word: code address and TOC packed
      into 32 bits each in the third word, and in the first one too exactly when
      the program starts there; otherwise the code address keeps its 64 bits. */
  predicate DescriptorIs(g: Image, r: seq<byte>, i: nat)
    requires ".opd" in g.sections && g.sections[".opd"].offset + 24 * (i + 1) <= |g.data| == |r|
  {
    var o := g.sections[".opd"].offset + 24 * i;
    var func, toc := U64(g.data[o..o + 8]), U64(g.data[o + 8..o + 16]);
    var packed := func % 0x1_0000_0000 * 0x1_0000_0000 + toc % 0x1_0000_0000;
    && U64(r[o..o + 8]) as int == (if StartsAt(g, i, func) then packed else func)
    && U64(r[o + 8..o + 16]) == toc
    && U64(r[o + 16..o + 24]) as int == packed
  }

  /** Every descriptor in the file, also when a later one is not and the pass fails. */
  lemma {:induction false} DescriptorWords(g: Image, i: nat)
    requires i < DescriptorCount(g) && g.sections[".opd"].offset + 24 * (i + 1) <= |g.data|
    ensures DescriptorIs(g, Opd(g).data, i)
  {
    hide OpdUpTo, U64, Pack, Fitting;
    DoneIs(g, i);
    UpToDescriptor(g, OpdDone(g), g.data, i);
    var o := g.sections[".opd"].offset + 24 * i;
    PackIs(U64(g.data[o..o + 8]), U64(g.data[o + 8..o + 16]));
  }

  lemma {:induction false} DoneIs(g: Image, i: nat)
    requires i < DescriptorCount(g) && g.sections[".opd"].offset + 24 * (i + 1) <= |g.data|
    ensures i < OpdDone(g) && OpdBase(g) + DESCRIPTOR_SIZE * OpdDone(g) <= |g.data|
  {
  }

  predicate InFile(g: Image, i: nat)
    requires ".opd" in g.sections
  {
    g.sections[".opd"].offset + 24 * (i + 1) <= |g.data|
  }

  /** One step of the pass. */
  lemma {:induction false} StepWords(g: Image, i: nat)
    requires ".opd" in g.sections && InFile(g, i)
    ensures DescriptorIs(g, OpdStep(g, i, g.data), i)
  {
    hide OpdStep, U64, Pack;
    StepDescriptor(g, i, g.data);
    var o := g.sections[".opd"].offset + 24 * i;
    PackIs(U64(g.data[o..o + 8]), U64(g.data[o + 8..o + 16]));
  }

  lemma {:induction false} DescriptorsDone(g: Image)
    ensures forall i :: 0 <= i < DescriptorCount(g) && InFile(g, i) ==> DescriptorIs(g, Opd(g).data, i)
  {
    hide Opd, DescriptorIs;
    forall i | 0 <= i < DescriptorCount(g) && InFile(g, i) ensures DescriptorIs(g, Opd(g).data, i) {
      DescriptorWords(g, i);
    }
  }

  /** Patching fails exactly when parsing does, with its message, or when `.opd`
      says more than the file holds. */
  lemma {:induction false} RefusedExactly(d: seq<byte>, order: seq<string>)
    requires Indexable(d) && (Parse(d).Ok? ==> NoPanic(Parse(d).value) && Known(Parse(d).value, order))
    ensures Parse(d).Err? ==> PatchFile(d, order) == Err(Parse(d).message)
    ensures Parse(d).Ok? ==>
      var g := Parse(d).value;
      if DescriptorCount(g) > 0 && g.sections[".opd"].offset + 24 * DescriptorCount(g) > |d|
      then PatchFile(d, order) == Err(".opd entry exceeds file size")
      else PatchFile(d, order).Ok?
  {
    hide Parse, Indexable, NoPanic, PatchAll;
    if Parse(d).Ok? {
      Rerun.ParsedData(d);
      DescriptorsFit(Parse(d).value);
    }
  }

  // ---------- PRX parameters ----------

  /** The word at `at` is the address or end of the section, or 0 without it. */
  predicate BoundsAt(r: seq<byte>, at: nat, sections: map<string, Section>, name: string)
    requires at + 8 <= |r|
  {
    if name in sections
    then
      && U32(r[at..at + 4]) as int == sections[name].addr % 0x1_0000_0000
      && U32(r[at + 4..at + 8]) as int == (sections[name].addr + sections[name].size) % 0x1_0000_0000
    else U32(r[at..at + 4]) == 0 && U32(r[at + 4..at + 8]) == 0
  }

  /** The export table's bounds at +16, the import table's at +24. */
  predicate ParamsAre(g: Image, r: seq<byte>)
    requires ".sys_proc_prx_param" in g.sections
  {
    var o := g.sections[".sys_proc_prx_param"].offset;
    o + 32 <= |r| && BoundsAt(r, o + 16, g.sections, ".lib.ent") && BoundsAt(r, o + 24, g.sections, ".lib.stub")
  }

  /** A block of at least 40 bytes gets them, and nothing else changes. */
  lemma {:induction false} ParamBounds(g: Image)
    requires PrxParamsFit(g) && ".sys_proc_prx_param" in g.sections && g.sections[".sys_proc_prx_param"].size >= 40
    ensures ParamsAre(g, PrxParams(g).data)
    ensures var r, o := PrxParams(g).data, g.sections[".sys_proc_prx_param"].offset;
      forall i :: 0 <= i < |g.data| && !(o + 16 <= i < o + 32) ==> r[i] == g.data[i]
  {
    hide U32, BoundsAt, PrxBounds;
    var r, b := PrxParams(g).data, PrxBounds(g.sections);
    var o: nat := g.sections[".sys_proc_prx_param"].offset;
    assert r[o + 16..o + 32] == b;
    EndsWritten(r, o + 16, g.sections);
  }

  lemma {:induction false} EndsWritten(r: seq<byte>, at: nat, sections: map<string, Section>)
    requires at + 16 <= |r| && r[at..at + 16] == PrxBounds(sections)
    ensures BoundsAt(r, at, sections, ".lib.ent") && BoundsAt(r, at + 8, sections, ".lib.stub")
  {
    hide U32, BE;
    var b := PrxBounds(sections);
    SliceOfSlice(r, at, at + 16, 0, 4); SliceOfSlice(r, at, at + 16, 4, 8);
    SliceOfSlice(r, at, at + 16, 8, 12); SliceOfSlice(r, at, at + 16, 12, 16);
    assert b[0..4] == BE(Start(sections, ".lib.ent"), 4) && b[4..8] == BE(End(sections, ".lib.ent"), 4);
    assert b[8..12] == BE(Start(sections, LIB_STUB), 4) && b[12..16] == BE(End(sections, LIB_STUB), 4);
    FieldRoundTrip32(Start(sections, ".lib.ent")); FieldRoundTrip32(End(sections, ".lib.ent"));
    FieldRoundTrip32(Start(sections, LIB_STUB)); FieldRoundTrip32(End(sections, LIB_STUB));
  }

  /** Without such a block nothing changes. */
  lemma {:induction false} NoParamBlock(g: Image)
    requires ".sys_proc_prx_param" in g.sections ==> g.sections[".sys_proc_prx_param"].size < 40
    ensures PrxParamsFit(g) && PrxParams(g) == g
  {
  }

  /** Without a descriptor neither. */
  lemma {:induction false} NoDescriptors(g: Image)
    requires DescriptorCount(g) == 0
    ensures Opd(g) == g
  {
  }

  // ---------- the patched file ----------

  /** A file the parser accepts, on which no pass leaves it and no byte belongs to
      two of them. */
  ghost predicate PassesApart(d: seq<byte>, order: seq<string>) {
    && Indexable(d) && Parse(d).Ok? && var g := Parse(d).value;
    && Patchable(g) && CanRunAll(g) && Known(g, order) && Disjoint(g, order) && NoWrap(g) && OpdFits(g)
  }

  /** What is written back. */
  ghost function Patched(d: seq<byte>, order: seq<string>): (r: seq<byte>)
    requires PassesApart(d, order)
    ensures |r| == |d| && PatchFile(d, order) == Ok(r)
  {
    FileRuns(d, order);
    PatchFile(d, order).value
  }

  lemma {:induction false} FileRuns(d: seq<byte>, order: seq<string>)
    requires PassesApart(d, order)
    ensures var g := Parse(d).value;
      g.data == d && Patchable(g) && PatchFile(d, order) == Ok(PatchAll(g, order).data) && |PatchAll(g, order).data| == |d|
  {
    hide PatchAll, Patchable, Disjoint, NoWrap, Region;
    var g := Parse(d).value;
    PipelineIsOnePatch(g, order);
  }

  /** Bytes of one pass's region are what that pass alone makes of the file. */
  lemma {:induction false} RegionBytes(d: seq<byte>, order: seq<string>, p: Pass, lo: nat, hi: nat)
    requires PassesApart(d, order) && lo <= hi <= |d|
    requires forall i: nat :: lo <= i < hi ==> Region(p, Parse(d).value, order, i)
    ensures |Run(p, Parse(d).value, order).data| == |d|
    ensures forall i :: lo <= i < hi ==> Patched(d, order)[i] == Run(p, Parse(d).value, order).data[i]
  {
    hide PatchAll, Patchable, Disjoint, NoWrap, Region, Run, PatchFile, Indexable, Parse, CanRunAll, CanRun, OpdFits;
    var g := Parse(d).value;
    FileRuns(d, order);
    RunLength(p, g, order);
    forall i | lo <= i < hi ensures Patched(d, order)[i] == Run(p, g, order).data[i] {
      PipelineAt(g, order, p, i);
    }
  }

  lemma {:induction false} RunLength(p: Pass, g: Image, order: seq<string>)
    requires CanRunAll(g) && Known(g, order)
    ensures CanRun(p, g) && |Run(p, g, order).data| == |g.data|
  {
    hide OsAbi, Phdrs, LibStubs, Opd, PrxParams, TableFits;
  }

  /** The OS/ABI byte of every patched file. */
  lemma {:induction false} FileOsAbi(d: seq<byte>, order: seq<string>)
    requires PassesApart(d, order)
    ensures |d| >= 64 && Patched(d, order)[7] == 102
  {
    hide Disjoint, NoWrap, Patched, PatchFile, OpdFits, Patchable, TableFits, PrxParamsFit, Indexable, Parse;
    FileRuns(d, order);
    RegionBytes(d, order, FixOsAbi, 7, 8);
  }

  /** The descriptors of every patched file. */
  lemma {:induction false} FileDescriptors(d: seq<byte>, order: seq<string>, i: nat)
    requires PassesApart(d, order) && i < DescriptorCount(Parse(d).value)
    ensures var g := Parse(d).value;
      && |Patched(d, order)| == |g.data|
      && g.sections[".opd"].offset + 24 * (i + 1) <= |g.data|
      && DescriptorIs(g, Patched(d, order), i)
  {
    hide Disjoint, NoWrap, Patched, PatchFile, Opd, DescriptorIs, Indexable, Parse, CanRunAll, Patchable;
    var g := Parse(d).value;
    var o := g.sections[".opd"].offset + 24 * i;
    FileRuns(d, order);
    DescriptorsFit(g);
    DescriptorWords(g, i);
    RegionBytes(d, order, FixOpd, o, o + 24);
    var r, w := Patched(d, order), Opd(g).data;
    SameDescriptorIs(g, r, w, i);
  }

  lemma {:induction false} SameDescriptorIs(g: Image, r: seq<byte>, w: seq<byte>, i: nat)
    requires ".opd" in g.sections && g.sections[".opd"].offset + 24 * (i + 1) <= |g.data| == |r| == |w|
    requires var o := g.sections[".opd"].offset + 24 * i; forall x :: o <= x < o + 24 ==> r[x] == w[x]
    requires DescriptorIs(g, w, i)
    ensures DescriptorIs(g, r, i)
  {
    hide U64;
    var o := g.sections[".opd"].offset + 24 * i;
    assert r[o..o + 8] == w[o..o + 8] && r[o + 8..o + 16] == w[o + 8..o + 16] && r[o + 16..o + 24] == w[o + 16..o + 24];
  }

  /** The PRX parameter block of every patched file. */
  lemma {:induction false} FileParamBounds(d: seq<byte>, order: seq<string>)
    requires PassesApart(d, order)
    requires var g := Parse(d).value;
      ".sys_proc_prx_param" in g.sections && g.sections[".sys_proc_prx_param"].size >= 40
    ensures ParamsAre(Parse(d).value, Patched(d, order))
  {
    hide Disjoint, NoWrap, Patched, PatchFile, PrxParams, BoundsAt, Indexable, Parse, OpdFits, TableFits, Patchable,
      Phdrs, LibStubs, Opd, OsAbi, StubField, PhdrBytes, OpdByte, NewSlots;
    var g := Parse(d).value;
    var o: nat := g.sections[".sys_proc_prx_param"].offset;
    FileRuns(d, order);
    ParamBounds(g);
    RegionBytes(d, order, FixPrxParams, o + 16, o + 32);
    var r, w := Patched(d, order), PrxParams(g).data;
    SameBounds(r, w, o + 16, g.sections, ".lib.ent");
    SameBounds(r, w, o + 24, g.sections, ".lib.stub");
  }

  lemma {:induction false} SameBounds(r: seq<byte>, w: seq<byte>, at: nat, sections: map<string, Section>, name: string)
    requires at + 8 <= |r| == |w| && (forall x :: at <= x < at + 8 ==> r[x] == w[x]) && BoundsAt(w, at, sections, name)
    ensures BoundsAt(r, at, sections, name)
  {
    hide U32;
    assert r[at..at + 4] == w[at..at + 4] && r[at + 4..at + 8] == w[at + 4..at + 8];
  }

  lemma {:induction false} HeaderRegion(g: Image, order: seq<string>, lib: string)
    requires CanRunAll(g) && Enumerates(order, g.symbols) && BindsLib(g, lib)
    ensures var at := HeaderAt(g, lib);
      forall i: nat :: at + 6 <= i < at + 8 || at + 16 <= i < at + 28 ==> Region(FixStubs, g, order, i)
  {
    hide StubHeaders, TableFits, PrxParamsFit, NoDup;
    var h, s := Header(lib, g.symbols[lib + "_prx_header"]), g.sections[LIB_STUB];
    StubHeadersAre(g, order);
    NoRoom(g);
    BindsLibIs(g, h);
    var at := HeaderAt(g, lib);
    forall i: nat | at + 6 <= i < at + 8 || at + 16 <= i < at + 28
      ensures StubField(s, |g.data|, StubHeaders(g, order), i)
    {
      assert HeaderField(HeaderOffset(s, h), i);
    }
  }

  /** The import headers of every patched file. */
  lemma {:induction false} FileHeader(d: seq<byte>, order: seq<string>, lib: string)
    requires PassesApart(d, order) && Enumerates(order, Parse(d).value.symbols)
    requires HeadersApart(Parse(d).value) && BindsLib(Parse(d).value, lib)
    ensures var g := Parse(d).value;
      && |Patched(d, order)| == |g.data|
      && FieldsAre(Patched(d, order), g.data, HeaderAt(g, lib), g.symbols, lib)
  {
    hide Disjoint, NoWrap, Patched, PatchFile, Patchable, PhdrBytes, OpdByte, NewSlots, LibStubs, U16, U32, Indexable, Parse, OpdFits, TableFits, HeadersApart, HeaderAt,
      BindsLib, StubHeaders;
    var g := Parse(d).value;
    FileRuns(d, order);
    BoundHeader(g, order, lib);
    var at := HeaderAt(g, lib);
    HeaderRegion(g, order, lib);
    RegionBytes(d, order, FixStubs, at + 6, at + 8);
    RegionBytes(d, order, FixStubs, at + 16, at + 28);
    SameFieldsAre(Patched(d, order), LibStubs(g, order).data, g.data, at, g.symbols, lib);
  }

  lemma {:induction false} SameFieldsAre(r: seq<byte>, w: seq<byte>, d: seq<byte>, at: nat, symbols: map<string, u64>,
      lib: string)
    requires at + 44 <= |r| == |w| == |d| && FieldsAre(w, d, at, symbols, lib)
    requires forall i :: at + 6 <= i < at + 8 || at + 16 <= i < at + 28 ==> r[i] == w[i]
    ensures FieldsAre(r, d, at, symbols, lib)
  {
    hide U16, U32;
    assert r[at + 6..at + 8] == w[at + 6..at + 8] && r[at + 16..at + 20] == w[at + 16..at + 20];
    assert r[at + 20..at + 24] == w[at + 20..at + 24] && r[at + 24..at + 28] == w[at + 24..at + 28];
  }

  /** Each PT_LOAD header of the file, in the patched file. */
  lemma {:induction false} FileKeptHeader(d: seq<byte>, order: seq<string>, i: nat)
    requires PassesApart(d, order) && TableClearOfHeader(Parse(d).value) && i < Parse(d).value.phnum
    requires IsLoad(Parse(d).value, i)
    ensures KeptIs(Parse(d).value, Patched(d, order), i)
  {
    hide Disjoint, NoWrap, Patched, PatchFile, Phdrs, U32, Indexable, Parse, OpdFits, Kept, Injected, Loads, Patchable;
    var g := Parse(d).value;
    FileRuns(d, order);
    KeptHeader(g, i);
    var at := g.phoff + 56 * Loads(d, g.phoff, i);
    RegionBytes(d, order, FixPhdrs, at, at + 56);
    var r, w := Patched(d, order), Phdrs(g).data;
    assert r[at..at + 4] == w[at..at + 4] && r[at + 4..at + 8] == w[at + 4..at + 8] && r[at + 8..at + 56] == w[at + 8..at + 56];
  }

  /** The injected headers, the number of headers and the zeroed rest of the
      table, in the patched file. */
  lemma {:induction false} FileAddedHeaders(d: seq<byte>, order: seq<string>)
    requires PassesApart(d, order) && TableClearOfHeader(Parse(d).value)
    ensures AddedAre(Parse(d).value, Patched(d, order))
  {
    hide Disjoint, NoWrap, Patched, PatchFile, Phdrs, U16, Indexable, Parse, OpdFits, Kept, Injected, Loads, Patchable,
      ParamAt;
    var g := Parse(d).value;
    FileRuns(d, order);
    AddedHeaders(g);
    NewCountIs(g);
    var lo, hi := g.phoff, g.phoff + 56 * Slots(g);
    RegionBytes(d, order, FixPhdrs, lo, hi);
    RegionBytes(d, order, FixPhdrs, 56, 58);
    var r, w := Patched(d, order), Phdrs(g).data;
    assert r[56..58] == w[56..58];
    var t := g.phoff + 56 * Loads(d, g.phoff, g.phnum);
    var u := if ".sys_proc_param" in g.sections then t + 56 else t;
    if ".sys_proc_param" in g.sections { SameParamAt(r, w, t, 0x6000_0001, g.sections[".sys_proc_param"], 8); }
    if ".sys_proc_prx_param" in g.sections { SameParamAt(r, w, u, 0x6000_0002, g.sections[".sys_proc_prx_param"], 4); }
  }

  lemma {:induction false} SameParamAt(r: seq<byte>, w: seq<byte>, t: nat, kind: u32, s: Section, minAlign: u64)
    requires t + 56 <= |r| == |w| && (forall x :: t <= x < t + 56 ==> r[x] == w[x]) && ParamAt(w, t, kind, s, minAlign)
    ensures ParamAt(r, t, kind, s, minAlign)
  {
    hide U32, U64;
    assert r[t..t + 4] == w[t..t + 4] && r[t + 4..t + 8] == w[t + 4..t + 8] && r[t + 8..t + 16] == w[t + 8..t + 16];
    assert r[t + 16..t + 24] == w[t + 16..t + 24] && r[t + 24..t + 32] == w[t + 24..t + 32];
    assert r[t + 32..t + 40] == w[t + 32..t + 40] && r[t + 40..t + 48] == w[t + 40..t + 48];
    assert r[t + 48..t + 56] == w[t + 48..t + 56];
  }
}
