/** What the program header pass means on decoded headers
    (System V gABI chapter 5). */
module ProgramHeaders {
  import opened Bytes
  import opened Elf
  import opened Passes

  datatype Phdr = Phdr(kind: u32, flags: u32, offset: u64, vaddr: u64, paddr: u64,
                       filesz: u64, memsz: u64, align: u64)

  function Decode(s: Slot): Phdr {
    Phdr(U32(s[0..4]), U32(s[4..8]), U64(s[8..16]), U64(s[16..24]), U64(s[24..32]),
         U64(s[32..40]), U64(s[40..48]), U64(s[48..56]))
  }

  function Encode(p: Phdr): Slot {
    BE(p.kind, 4) + BE(p.flags, 4) + BE(p.offset, 8) + BE(p.vaddr, 8) + BE(p.paddr, 8)
      + BE(p.filesz, 8) + BE(p.memsz, 8) + BE(p.align, 8)
  }

  lemma {:induction false} EncodeFields(p: Phdr)
    ensures var s := Encode(p);
      && s[0..4] == BE(p.kind, 4) && s[4..8] == BE(p.flags, 4) && s[8..16] == BE(p.offset, 8)
      && s[16..24] == BE(p.vaddr, 8) && s[24..32] == BE(p.paddr, 8) && s[32..40] == BE(p.filesz, 8)
      && s[40..48] == BE(p.memsz, 8) && s[48..56] == BE(p.align, 8)
  {
    hide BE;
  }

  lemma {:induction false} EncodeDecodes(p: Phdr)
    ensures Decode(Encode(p)) == p
  {
    hide BE, U32, U64, Encode;
    EncodeFields(p);
    FieldRoundTrip32(p.kind); FieldRoundTrip32(p.flags); FieldRoundTrip64(p.offset);
    FieldRoundTrip64(p.vaddr); FieldRoundTrip64(p.paddr); FieldRoundTrip64(p.filesz);
    FieldRoundTrip64(p.memsz); FieldRoundTrip64(p.align);
  }

  function DecodeAll(slots: seq<Slot>): (r: seq<Phdr>)
    ensures |r| == |slots|
  {
    if slots == [] then [] else DecodeAll(slots[..|slots| - 1]) + [Decode(slots[|slots| - 1])]
  }

  /** The first `n` headers of the table at `phoff`. */
  function Table(d: seq<byte>, phoff: nat, n: nat): (r: seq<Phdr>)
    requires phoff + PHENTSIZE * n <= |d|
    ensures |r| == n
  {
    if n == 0 then [] else Table(d, phoff, n - 1) + [Decode(SlotAt(d, phoff, n - 1))]
  }

  /** Only PT_LOAD survives, in order, and only its flags change. */
  function SonyTable(phs: seq<Phdr>): (r: seq<Phdr>) {
    if phs == [] then []
    else
      var p := phs[|phs| - 1];
      SonyTable(phs[..|phs| - 1])
        + if p.kind == PT_LOAD then [p.(flags := SonyFlags(p.flags))] else []
  }

  function ParamPhdr(kind: u32, s: Section, minAlign: u64): Phdr {
    Phdr(kind, 0, s.offset, s.addr, s.addr, s.size, s.size, Max(s.addralign, minAlign))
  }

  function InjectedPhdrs(sections: map<string, Section>): seq<Phdr> {
    (if ".sys_proc_param" in sections
     then [ParamPhdr(PT_SCE_PROC_PARAM, sections[".sys_proc_param"], 8)] else [])
    + (if ".sys_proc_prx_param" in sections
       then [ParamPhdr(PT_SCE_PROC_PRX_PARAM, sections[".sys_proc_prx_param"], 4)] else [])
  }

  lemma {:induction false} DecodeReflag(s: Slot)
    ensures Decode(Reflag(s)) == Decode(s).(flags := SonyFlags(Decode(s).flags))
  {
    hide BE, U32, U64, SonyFlags;
    var f := SonyFlags(U32(s[4..8]));
    var r := Reflag(s);
    assert r[0..4] == s[0..4] && r[4..8] == BE(f, 4) && r[8..16] == s[8..16] && r[16..24] == s[16..24];
    assert r[24..32] == s[24..32] && r[32..40] == s[32..40] && r[40..48] == s[40..48] && r[48..56] == s[48..56];
    FieldRoundTrip32(f);
  }

  lemma {:induction false} DecodeAllAppend(a: seq<Slot>, b: seq<Slot>)
    ensures DecodeAll(a + b) == DecodeAll(a) + DecodeAll(b)
  {
    hide Decode;
    if b == [] {
      assert a + b == a;
    } else {
      var n := |b| - 1;
      assert (a + b)[..|a| + n] == a + b[..n];
      DecodeAllAppend(a, b[..n]);
    }
  }

  lemma {:induction false} KeptDecodes(d: seq<byte>, phoff: nat, n: nat)
    requires phoff + PHENTSIZE * n <= |d|
    ensures DecodeAll(Kept(d, phoff, n)) == SonyTable(Table(d, phoff, n))
  {
    hide SonyFlags, Reflag, SlotAt, Val;
    if n > 0 {
      KeptDecodes(d, phoff, n - 1);
      var s, kept := SlotAt(d, phoff, n - 1), Kept(d, phoff, n - 1);
      DecodeReflag(s);
      assert Table(d, phoff, n)[..n - 1] == Table(d, phoff, n - 1);
      var last: seq<Slot> := if U32(s[0..4]) == PT_LOAD then [Reflag(s)] else [];
      DecodeAllAppend(kept, last);
      assert last == [Reflag(s)] ==> last[..0] == [] && DecodeAll(last) == [Decode(Reflag(s))];
    }
  }

  lemma {:induction false} InjectedDecodes(sections: map<string, Section>)
    ensures DecodeAll(Injected(sections)) == InjectedPhdrs(sections)
  {
    hide Decode, Encode;
    var a, b := Injected(sections), InjectedPhdrs(sections);
    if ".sys_proc_param" in sections { ParamSlotDecodes(PT_SCE_PROC_PARAM, sections[".sys_proc_param"], 8); }
    if ".sys_proc_prx_param" in sections { ParamSlotDecodes(PT_SCE_PROC_PRX_PARAM, sections[".sys_proc_prx_param"], 4); }
    if |a| == 2 { assert a[..1] == [a[0]]; assert DecodeAll(a) == [Decode(a[0]), Decode(a[1])]; }
  }

  lemma {:induction false} ParamSlotDecodes(kind: u32, s: Section, minAlign: u64)
    ensures Decode(ParamSlot(kind, s, minAlign)) == ParamPhdr(kind, s, minAlign)
  {
    hide Decode;
    EncodeDecodes(ParamPhdr(kind, s, minAlign));
  }

  lemma {:induction false} FlatSlot(slots: seq<Slot>, i: nat)
    requires i < |slots|
    ensures Flat(slots)[PHENTSIZE * i..PHENTSIZE * (i + 1)] == slots[i]
  {
    var n := |slots| - 1;
    if i < n {
      FlatSlot(slots[..n], i);
      assert Flat(slots)[PHENTSIZE * i..PHENTSIZE * (i + 1)] == Flat(slots[..n])[PHENTSIZE * i..PHENTSIZE * (i + 1)];
    }
  }

  /** A table area that holds `slots` decodes to them. */
  lemma {:induction false} TableOfSlots(d: seq<byte>, phoff: nat, slots: seq<Slot>)
    requires phoff + PHENTSIZE * |slots| <= |d|
    requires forall i :: 0 <= i < |slots| ==> SlotAt(d, phoff, i) == slots[i]
    ensures Table(d, phoff, |slots|) == DecodeAll(slots)
  {
    hide Decode, SlotAt;
    if slots != [] { TableOfSlots(d, phoff, slots[..|slots| - 1]); }
  }

  /** The new table does not run into the e_phnum field. */
  predicate TableClearOfHeader(g: Image)
    requires OldTableFits(g)
  {
    g.phoff >= 58 || g.phoff + PHENTSIZE * Slots(g) <= 56
  }

  lemma {:induction false} NewSlotAt(g: Image, i: nat)
    requires |g.data| >= 64 && TableFits(g) && TableClearOfHeader(g) && i < Slots(g)
    ensures SlotAt(Phdrs(g).data, g.phoff, i)
         == if i < |NewSlots(g)| then NewSlots(g)[i] else Zeros(PHENTSIZE)
  {
    hide BE, Kept, Injected, Flat, NewSlots;
    var lo, hi := g.phoff + PHENTSIZE * i, g.phoff + PHENTSIZE * (i + 1);
    var d1 := Put(g.data, g.phoff, NewTable(g));
    PutFrame(d1, 56, BE(NewPhnum(g), 2), lo, hi);
    assert d1[lo..hi] == NewTable(g)[PHENTSIZE * i..PHENTSIZE * (i + 1)];
    if i < |NewSlots(g)| {
      FlatSlot(NewSlots(g), i);
      assert NewTable(g)[PHENTSIZE * i..PHENTSIZE * (i + 1)] == Flat(NewSlots(g))[PHENTSIZE * i..PHENTSIZE * (i + 1)];
    } else {
      assert NewTable(g)[PHENTSIZE * i..PHENTSIZE * (i + 1)] == Zeros(PHENTSIZE);
    }
  }

  /** The bytes the pass may change. */
  predicate PhdrBytes(g: Image, i: nat)
    requires OldTableFits(g)
  {
    g.phoff <= i < g.phoff + PHENTSIZE * Slots(g) || 56 <= i < 58
  }

  lemma {:induction false} PhdrFrame(g: Image)
    requires |g.data| >= 64 && TableFits(g)
    ensures forall i :: 0 <= i < |g.data| && !PhdrBytes(g, i) ==> Phdrs(g).data[i] == g.data[i]
  {
    hide BE, NewSlots, Flat, Zeros;
  }

  lemma {:induction false} NewTableDecodes(g: Image)
    requires |g.data| >= 64 && TableFits(g) && TableClearOfHeader(g)
    ensures var h, n := Phdrs(g), |NewSlots(g)|;
      && Table(h.data, h.phoff, n) == SonyTable(Table(g.data, g.phoff, g.phnum)) + InjectedPhdrs(g.sections)
      && (forall i :: n <= i < g.phnum ==> SlotAt(h.data, g.phoff, i) == Zeros(PHENTSIZE))
  {
    hide Put, BE, Phdrs, Kept, Injected, SlotAt, Decode, NewTable, Flat, Zeros, SonyTable, Table, DecodeAll;
    hide InjectedPhdrs, NewSlots;
    var d, slots := Phdrs(g).data, NewSlots(g);
    assert slots == Kept(g.data, g.phoff, g.phnum) + Injected(g.sections) by { NewSlotsParts(g); }
    forall i | 0 <= i < Slots(g)
      ensures SlotAt(d, g.phoff, i) == if i < |slots| then slots[i] else Zeros(PHENTSIZE)
    {
      NewSlotAt(g, i);
    }
    TableOfSlots(d, g.phoff, slots);
    DecodeAllAppend(Kept(g.data, g.phoff, g.phnum), Injected(g.sections));
    KeptDecodes(g.data, g.phoff, g.phnum);
    InjectedDecodes(g.sections);
  }

  lemma {:induction false} NewSlotsParts(g: Image)
    requires OldTableFits(g)
    ensures NewSlots(g) == Kept(g.data, g.phoff, g.phnum) + Injected(g.sections)
  {
  }

  /** The rewrite on decoded tables: the PT_LOAD headers in order with only
      their flags remapped, then the PROC_PARAM and PRX_PARAM headers of the
      sections that exist; e_phnum is the new length, every old slot left over
      is zero, and no byte outside the table and e_phnum changes. */
  lemma {:induction false} RewriteRefinesTable(g: Image)
    requires |g.data| >= 64 && TableFits(g) && TableClearOfHeader(g) && |NewSlots(g)| < 0x1_0000
    ensures var h := Phdrs(g);
      && h.phnum as int == U16(h.data[56..58]) as int == |NewSlots(g)|
      && Table(h.data, h.phoff, h.phnum) == SonyTable(Table(g.data, g.phoff, g.phnum)) + InjectedPhdrs(g.sections)
      && (forall i :: h.phnum <= i < g.phnum ==> SlotAt(h.data, g.phoff, i) == Zeros(PHENTSIZE))
      && (forall i :: 0 <= i < |g.data| && !PhdrBytes(g, i) ==> h.data[i] == g.data[i])
  {
    hide Put, BE, NewTable, Table, SonyTable, InjectedPhdrs, NewSlots;
    PutRead(Put(g.data, g.phoff, NewTable(g)), 56, BE(NewPhnum(g), 2));
    FieldRoundTrip16(NewPhnum(g));
    NewTableDecodes(g);
    PhdrFrame(g);
  }
}
