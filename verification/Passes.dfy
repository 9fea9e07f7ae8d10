/** The five rewriting passes as functions on an `Image`. The methods of
    `Patcher.ElfPatcher` are proved to compute exactly these functions; the
    other modules prove what the functions mean. */
module Passes {
  import opened Bytes
  import opened Wrappers
  import opened Lists
  import opened Elf

  const ELFOSABI_CELLLV2: byte := 102
  const PT_LOAD: u32 := 1
  const PT_SCE_PROC_PARAM: u32 := 0x6000_0001
  const PT_SCE_PROC_PRX_PARAM: u32 := 0x6000_0002
  const PHENTSIZE: nat := 56
  const HEADER_SIZE: nat := 44
  const DESCRIPTOR_SIZE: nat := 24

  // ---------- 1. OS/ABI ----------

  /** `h` differs from `g` in the buffer only, and not in its length. */
  predicate SameButData(g: Image, h: Image) {
    h == g.(data := h.data) && |h.data| == |g.data|
  }

  function OsAbi(g: Image): (r: Image)
    requires |g.data| >= 64
    ensures SameButData(g, r)
  {
    g.(data := Put(g.data, 7, [ELFOSABI_CELLLV2]))
  }

  // ---------- 2. program headers ----------

  type Slot = s: seq<byte> | |s| == 56 witness seq(56, _ => 0)

  /** Sony PPU flags: PF_X is looked at before PF_W. */
  function SonyFlags(f: u32): u32 {
    if f % 2 == 1 then 0x0040_0005
    else if (f / 2) % 2 == 1 then 0x0060_0006
    else f
  }

  function SlotAt(d: seq<byte>, phoff: nat, i: nat): Slot
    requires phoff + PHENTSIZE * (i + 1) <= |d|
  {
    d[phoff + PHENTSIZE * i..phoff + PHENTSIZE * (i + 1)]
  }

  function Reflag(s: Slot): Slot {
    s[..4] + BE(SonyFlags(U32(s[4..8])), 4) + s[8..]
  }

  /** The PT_LOAD slots among the first `n`, in order, with their new flags. */
  function Kept(d: seq<byte>, phoff: nat, n: nat): (r: seq<Slot>)
    requires phoff + PHENTSIZE * n <= |d|
    ensures |r| <= n
  {
    if n == 0 then []
    else
      var s := SlotAt(d, phoff, n - 1);
      Kept(d, phoff, n - 1) + if U32(s[0..4]) == PT_LOAD then [Reflag(s)] else []
  }

  function ParamSlot(kind: u32, s: Section, minAlign: u64): Slot {
    BE(kind, 4) + BE(0, 4) + BE(s.offset, 8) + BE(s.addr, 8) + BE(s.addr, 8)
      + BE(s.size, 8) + BE(s.size, 8) + BE(Max(s.addralign, minAlign), 8)
  }

  function Injected(sections: map<string, Section>): (r: seq<Slot>)
    ensures |r| <= 2
  {
    (if ".sys_proc_param" in sections
     then [ParamSlot(PT_SCE_PROC_PARAM, sections[".sys_proc_param"], 8)] else [])
    + (if ".sys_proc_prx_param" in sections
       then [ParamSlot(PT_SCE_PROC_PRX_PARAM, sections[".sys_proc_prx_param"], 4)] else [])
  }

  predicate OldTableFits(g: Image) {
    g.phoff + PHENTSIZE * g.phnum <= |g.data|
  }

  function NewSlots(g: Image): seq<Slot>
    requires OldTableFits(g)
  {
    Kept(g.data, g.phoff, g.phnum) + Injected(g.sections)
  }

  function Flat(slots: seq<Slot>): (r: seq<byte>)
    ensures |r| == PHENTSIZE * |slots|
  {
    if slots == [] then [] else Flat(slots[..|slots| - 1]) + slots[|slots| - 1]
  }

  /** Both the old and the new table are inside the file: the source writes
      slot `i` for every `i` below either count without a check. */
  predicate TableFits(g: Image) {
    OldTableFits(g) && g.phoff + PHENTSIZE * |NewSlots(g)| <= |g.data|
  }

  /** What the source needs: nothing when there is no slot to write. */
  predicate HeadersFit(g: Image) {
    (g.phnum == 0 && Injected(g.sections) == []) || TableFits(g)
  }

  /** The number of slots the pass overwrites. */
  function Slots(g: Image): nat
    requires OldTableFits(g)
  {
    Max(g.phnum, |NewSlots(g)|)
  }

  /** What the pass leaves in the table area. */
  function NewTable(g: Image): (r: seq<byte>)
    requires OldTableFits(g)
    ensures |r| == PHENTSIZE * Slots(g)
  {
    Flat(NewSlots(g)) + Zeros(PHENTSIZE * (Slots(g) - |NewSlots(g)|))
  }

  function NewPhnum(g: Image): u16
    requires OldTableFits(g)
  {
    |NewSlots(g)| % 0x1_0000
  }

  function Phdrs(g: Image): (r: Image)
    requires |g.data| >= 64 && TableFits(g)
    ensures SameButData(g.(phnum := NewPhnum(g)), r)
  {
    g.(data := Put(Put(g.data, g.phoff, NewTable(g)), 56, BE(NewPhnum(g), 2)), phnum := NewPhnum(g))
  }

  /** The whole pass. Without a slot to write it does not look at e_phoff. */
  function RewriteHeaders(g: Image): (r: Image)
    requires |g.data| >= 64 && HeadersFit(g)
    ensures SameButData(g.(phnum := r.phnum), r)
  {
    if TableFits(g) then Phdrs(g) else g.(data := Put(g.data, 56, BE(0, 2)), phnum := 0)
  }

  // ---------- 3. import headers ----------

  const LIB_STUB := ".lib.stub"

  /** A `_prx_header` symbol: the library it belongs to and its address. */
  datatype Header = Header(lib: string, addr: u64)

  function StripSuffix(name: string, suffix: string): Option<string> {
    if |name| >= |suffix| && name[|name| - |suffix|..] == suffix
    then Some(name[..|name| - |suffix|]) else None
  }

  /** `order` lists every key of the symbol map once, in the order the hash
      map happens to yield them. */
  ghost predicate Enumerates(order: seq<string>, symbols: map<string, u64>) {
    && NoDup(order)
    && (forall k :: k in order <==> k in symbols)
  }

  function Collect(symbols: map<string, u64>, order: seq<string>): seq<Header>
    requires forall k :: k in order ==> k in symbols
  {
    if order == [] then []
    else
      var name := order[|order| - 1];
      var lib := StripSuffix(name, "_prx_header");
      Collect(symbols, order[..|order| - 1])
        + if lib.Some? then [Header(lib.value, symbols[name])] else []
  }

  function InsertByAddr(hs: seq<Header>, h: Header): seq<Header> {
    if hs == [] || hs[|hs| - 1].addr <= h.addr then hs + [h]
    else InsertByAddr(hs[..|hs| - 1], h) + [hs[|hs| - 1]]
  }

  /** `sort_by_key(|&(_, vaddr)| vaddr)`: stable. */
  function SortByAddr(hs: seq<Header>): seq<Header> {
    if hs == [] then []
    else InsertByAddr(SortByAddr(hs[..|hs| - 1]), hs[|hs| - 1])
  }

  function HeaderOffset(s: Section, h: Header): nat
    requires s.addr <= h.addr
  {
    s.offset + (h.addr - s.addr)
  }

  /** The header starts inside `.lib.stub` and lies inside the file. */
  predicate Binds(s: Section, len: nat, h: Header) {
    s.addr <= h.addr < s.addr + s.size && HeaderOffset(s, h) + HEADER_SIZE <= len
  }

  function PutNonzero(d: seq<byte>, off: nat, v: nat, n: nat): (r: seq<byte>)
    requires off + n <= |d|
    ensures |r| == |d|
  {
    if v != 0 then Put(d, off, BE(v, n)) else d
  }

  function Pointer(symbols: map<string, u64>, name: string): u32 {
    Lo32(Lookup(symbols, name).GetOr(0))
  }

  function SatSub(a: nat, b: nat): nat { if a >= b then a - b else 0 }

  function ImportCount(symbols: map<string, u64>, lib: string, stored: u16): u16 {
    if stored == 0 && lib + "_fstub_table" in symbols && lib + "_fstub_table_end" in symbols
    then (SatSub(symbols[lib + "_fstub_table_end"], symbols[lib + "_fstub_table"]) / 4) % 0x1_0000
    else stored
  }

  /** Binds the import header of `lib` at file offset `off`. */
  function BindHeader(symbols: map<string, u64>, lib: string, off: nat, d: seq<byte>): (r: seq<byte>)
    requires off + HEADER_SIZE <= |d|
    ensures |r| == |d|
  {
    var d1 := PutNonzero(d, off + 16, Pointer(symbols, lib + "_name"), 4);
    var d2 := PutNonzero(d1, off + 20, Pointer(symbols, lib + "_fnid_table"), 4);
    var d3 := PutNonzero(d2, off + 24, Pointer(symbols, lib + "_fstub_table"), 4);
    PutNonzero(d3, off + 6, ImportCount(symbols, lib, U16(d[off + 6..off + 8])), 2)
  }

  function BindOne(symbols: map<string, u64>, s: Section, h: Header, d: seq<byte>): (r: seq<byte>)
    ensures |r| == |d|
  {
    if Binds(s, |d|, h) then BindHeader(symbols, h.lib, HeaderOffset(s, h), d) else d
  }

  function BindAll(symbols: map<string, u64>, s: Section, hs: seq<Header>, d: seq<byte>): (r: seq<byte>)
    ensures |r| == |d|
  {
    if hs == [] then d
    else BindOne(symbols, s, hs[|hs| - 1], BindAll(symbols, s, hs[..|hs| - 1], d))
  }

  predicate HasStubs(g: Image) {
    LIB_STUB in g.sections && g.sections[LIB_STUB].size / HEADER_SIZE != 0
  }

  function StubHeaders(g: Image, order: seq<string>): seq<Header>
    requires forall k :: k in order ==> k in g.symbols
  {
    SortByAddr(Collect(g.symbols, order))
  }

  function LibStubs(g: Image, order: seq<string>): (r: Image)
    requires forall k :: k in order ==> k in g.symbols
    ensures SameButData(g, r)
  {
    if HasStubs(g)
    then g.(data := BindAll(g.symbols, g.sections[LIB_STUB], StubHeaders(g, order), g.data))
    else g
  }

  // ---------- 4. function descriptors ----------

  function OpdCount(g: Image): nat {
    if ".opd" in g.sections then g.sections[".opd"].size / DESCRIPTOR_SIZE else 0
  }

  /** How many leading descriptors lie inside a file of length `len`. */
  function Fitting(offset: nat, count: nat, len: nat): (n: nat)
    ensures n <= count && (n > 0 ==> offset + DESCRIPTOR_SIZE * n <= len)
    ensures n < count ==> offset + DESCRIPTOR_SIZE * (n + 1) > len
  {
    if offset + DESCRIPTOR_SIZE * count <= len then count
    else if offset > len then 0
    else (len - offset) / DESCRIPTOR_SIZE
  }

  /** The two doublewords a descriptor is read as. */
  function FuncAt(d: seq<byte>, off: nat): u64
    requires off + DESCRIPTOR_SIZE <= |d|
  {
    U64(d[off..off + 8])
  }

  function TocAt(d: seq<byte>, off: nat): u64
    requires off + DESCRIPTOR_SIZE <= |d|
  {
    U64(d[off + 8..off + 16])
  }

  function StartCode(g: Image): u64 {
    Lookup(g.symbols, "_start").GetOr(0)
  }

  predicate MatchesEntry(g: Image, i: nat, func: u64)
    requires ".opd" in g.sections
  {
    || g.sections[".opd"].addr + DESCRIPTOR_SIZE * i == g.entry
    || (StartCode(g) != 0 && func == StartCode(g))
  }

  /** `(func << 32) | (toc & 0xFFFFFFFF)` in 64 bits. */
  function Pack(func: u64, toc: u64): u64 {
    Lo32(func) * TWO32 + Lo32(toc)
  }

  function OpdStep(g: Image, i: nat, d: seq<byte>): (r: seq<byte>)
    requires ".opd" in g.sections
    requires g.sections[".opd"].offset + DESCRIPTOR_SIZE * (i + 1) <= |d|
    ensures |r| == |d|
  {
    var off := g.sections[".opd"].offset + DESCRIPTOR_SIZE * i;
    var func, toc := FuncAt(d, off), TocAt(d, off);
    var d1 := if MatchesEntry(g, i, func)
              then Put(Put(d, off, BE(Lo32(func), 4)), off + 4, BE(Lo32(toc), 4)) else d;
    Put(d1, off + 16, BE(Pack(func, toc), 8))
  }

  /** A descriptor step uses only the metadata of the image. */
  lemma {:induction false} OpdStepSameMeta(g: Image, h: Image, i: nat, d: seq<byte>)
    requires ".opd" in g.sections && h == g.(data := h.data)
    requires g.sections[".opd"].offset + DESCRIPTOR_SIZE * (i + 1) <= |d|
    ensures OpdStep(g, i, d) == OpdStep(h, i, d)
  {
  }

  function OpdUpTo(g: Image, n: nat, d: seq<byte>): (r: seq<byte>)
    requires n == 0 || (".opd" in g.sections && g.sections[".opd"].offset + DESCRIPTOR_SIZE * n <= |d|)
    ensures |r| == |d|
  {
    if n == 0 then d else OpdStep(g, n - 1, OpdUpTo(g, n - 1, d))
  }

  predicate OpdFits(g: Image) {
    OpdCount(g) == 0 || g.sections[".opd"].offset + DESCRIPTOR_SIZE * OpdCount(g) <= |g.data|
  }

  /** The descriptors inside the file are rewritten even when a later one
      makes the pass fail. */
  function Opd(g: Image): (r: Image)
    ensures SameButData(g, r)
  {
    if OpdCount(g) == 0 then g
    else g.(data := OpdUpTo(g, Fitting(g.sections[".opd"].offset, OpdCount(g), |g.data|), g.data))
  }

  function OpdResult(g: Image): Result<nat> {
    if OpdFits(g) then Ok(OpdCount(g)) else Err(".opd entry exceeds file size")
  }

  // ---------- 5. PRX parameters ----------

  function Start(sections: map<string, Section>, name: string): u32 {
    if name in sections then Lo32(sections[name].addr) else 0
  }

  function End(sections: map<string, Section>, name: string): u32 {
    if name in sections then Lo32(sections[name].addr + sections[name].size) else 0
  }

  predicate HasPrxParams(g: Image) {
    ".sys_proc_prx_param" in g.sections && g.sections[".sys_proc_prx_param"].size >= 0x28
  }

  predicate PrxParamsFit(g: Image) {
    HasPrxParams(g) ==> g.sections[".sys_proc_prx_param"].offset + 32 <= |g.data|
  }

  function PrxBounds(sections: map<string, Section>): (r: seq<byte>)
    ensures |r| == 16
  {
    BE(Start(sections, ".lib.ent"), 4) + BE(End(sections, ".lib.ent"), 4)
    + BE(Start(sections, LIB_STUB), 4) + BE(End(sections, LIB_STUB), 4)
  }

  function PrxParams(g: Image): (r: Image)
    requires PrxParamsFit(g)
    ensures SameButData(g, r)
  {
    if HasPrxParams(g)
    then g.(data := Put(g.data, g.sections[".sys_proc_prx_param"].offset + 16, PrxBounds(g.sections)))
    else g
  }

  // ---------- the pipeline ----------

  // The 64-bit sums of each pass, where it forms them; a wrap is a panic in a
  // checked build.

  predicate StubSumFits(s: Section, a: u64) {
    s.addr <= a ==>
      s.addr + s.size < TWO64 && (a < s.addr + s.size ==> s.offset + (a - s.addr) + HEADER_SIZE < TWO64)
  }

  predicate StubSumsFit(g: Image) {
    HasStubs(g) ==>
      forall name :: name in g.symbols && StripSuffix(name, "_prx_header").Some? ==>
        StubSumFits(g.sections[LIB_STUB], g.symbols[name])
  }

  predicate OpdSumsFit(g: Image) {
    OpdCount(g) > 0 ==>
      var s := g.sections[".opd"];
      var n := Fitting(s.offset, OpdCount(g), |g.data|);
      s.offset + DESCRIPTOR_SIZE < TWO64 && (n > 0 ==> s.addr + DESCRIPTOR_SIZE * (n - 1) < TWO64)
  }

  predicate EndFits(sections: map<string, Section>, name: string) {
    name in sections ==> sections[name].addr + sections[name].size < TWO64
  }

  predicate BoundSumsFit(g: Image) {
    HasPrxParams(g) ==> EndFits(g.sections, ".lib.ent") && EndFits(g.sections, LIB_STUB)
  }

  predicate NoWrap(g: Image) {
    |g.data| < 0x8000_0000_0000_0000 && StubSumsFit(g) && OpdSumsFit(g) && BoundSumsFit(g)
  }

  /** What the unchecked slice writes and the sums of the passes need. The last
      pass is not reached when the descriptor pass reports its error. */
  predicate NoPanic(g: Image) {
    && |g.data| >= 64 && HeadersFit(OsAbi(g)) && StubSumsFit(g) && OpdSumsFit(g)
    && (OpdFits(g) ==> PrxParamsFit(g) && BoundSumsFit(g))
  }

  /** All five passes can run. */
  predicate Patchable(g: Image) {
    NoPanic(g) && PrxParamsFit(g) && BoundSumsFit(g)
  }

  /** The pass sequence of `patch_elf_file`; only the descriptor pass can fail. */
  function PatchAll(g: Image, order: seq<string>): Image
    requires Patchable(g)
    requires forall k :: k in order ==> k in g.symbols
  {
    PrxParams(Opd(LibStubs(RewriteHeaders(OsAbi(g)), order)))
  }

  /** The bytes `patch_elf_file` writes back, or the error it reports. */
  function PatchFile(d: seq<byte>, order: seq<string>): Result<seq<byte>>
    requires Indexable(d)
    requires Parse(d).Ok? ==> NoPanic(Parse(d).value) && forall k :: k in order ==> k in Parse(d).value.symbols
  {
    match Parse(d)
    case Err(m) => Err(m)
    case Ok(g) =>
      if OpdFits(g) then Ok(PatchAll(g, order).data) else Err(".opd entry exceeds file size")
  }
}
