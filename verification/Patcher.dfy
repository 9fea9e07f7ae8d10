/** The mutable `ElfPatcher`: one byte buffer rewritten in place. Every method
    is proved equal to a function of `Elf` or `Passes`. */
module Patcher {
  import opened Bytes
  import opened Wrappers
  import opened Elf
  import opened Passes
  import opened ProgramHeaders
  import opened PatchedBytes

  class ElfPatcher {
    var data: array<byte>
    var entryPoint: u64
    var phoff: u64
    var shoff: u64
    var phnum: u16
    var shnum: u16
    var shstrndx: u16
    var sections: map<string, Section>
    var symbols: map<string, u64>

    function View(): Image
      reads this, data
    {
      Image(data[..], entryPoint, phoff, shoff, phnum, shnum, shstrndx, sections, symbols)
    }

    constructor (bytes: seq<byte>, g: Image)
      requires g.data == bytes
      ensures View() == g && fresh(data)
    {
      data := new byte[|bytes|](i requires 0 <= i < |bytes| => bytes[i]);
      entryPoint, phoff, shoff, phnum := g.entry, g.phoff, g.shoff, g.phnum;
      shnum, shstrndx, sections, symbols := g.shnum, g.shstrndx, g.sections, g.symbols;
    }

    /** `self.data[off..off + |bs|].copy_from_slice(bs)` */
    method CopyFromSlice(off: nat, bs: seq<byte>)
      requires off + |bs| <= data.Length
      modifies data
      ensures data[..] == Put(old(data[..]), off, bs)
    {
      forall k | 0 <= k < |bs| {
        data[off + k] := bs[k];
      }
    }

    // ---------- parsing ----------

    static method ReadShdrs(d: seq<byte>) returns (r: Option<seq<Section>>)
      requires |d| >= 64
      ensures r == if ShdrsFit(d) then Some(AllShdrs(d)) else None
    {
      var shoff, shnum := Shoff(d), Shnum(d);
      var raw := [];
      for i := 0 to shnum
        invariant i == 0 || shoff + 64 * i <= |d|
        invariant raw == Shdrs(d, shoff, i)
      {
        var start := shoff + i * 64;
        if start + 64 > |d| { return None; }
        raw := raw + [DecodeShdr(d[start..start + 64])];
      }
      r := Some(raw);
    }

    static method NameSections(shdrs: seq<Section>, table: seq<byte>) returns (m: map<string, Section>)
      requires NamesInTable(shdrs, table)
      ensures m == SectionMap(shdrs, table)
    {
      m := map[];
      for i := 0 to |shdrs|
        invariant m == SectionMap(shdrs[..i], table)
      {
        var name := NameAt(table, shdrs[i].nameIdx);
        m := m[name := shdrs[i].(name := name)];
        assert shdrs[..i + 1][..i] == shdrs[..i];
      }
      assert shdrs[..|shdrs|] == shdrs;
    }

    static method ReadSymbols(d: seq<byte>, sections: map<string, Section>) returns (m: map<string, u64>)
      requires SymtabReadable(d, sections)
      ensures m == Elf.Symbols(d, sections)
    {
      hide NameAt, U32, U64;
      m := map[];
      if ".symtab" in sections && ".strtab" in sections {
        var sym, str := sections[".symtab"], sections[".strtab"];
        if SectionFits(d, sym) && SectionFits(d, str) {
          var syms, strs, ent := Contents(d, sym), Contents(d, str), EntSize(sym);
          var num := |syms| / ent;
          for i := 0 to num
            invariant i == 0 || (i - 1) * ent + 16 <= |syms|
            invariant m == SymbolMap(syms, strs, ent, i)
          {
            EntryInside(i, num, ent);
            var off := i * ent;
            var idx := U32(syms[off..off + 4]);
            var value := U64(syms[off + 8..off + 16]);
            if idx < |strs| {
              var name := NameAt(strs, idx);
              if name != "" { m := m[name := value]; }
            }
          }
        }
      }
    }

    static method New(bytes: seq<byte>) returns (r: Result<ElfPatcher>)
      requires Indexable(bytes)
      ensures r.Err? ==> Parse(bytes) == Err(r.message)
      ensures r.Ok? ==> fresh(r.value) && fresh(r.value.data) && Parse(bytes) == Ok(r.value.View())
    {
      var bad := HeaderError(bytes);
      if bad.Some? { return Err(bad.value); }
      var raw := ReadShdrs(bytes);
      if raw == None { return Err("Section header table exceeds file boundary"); }
      var ndx := Shstrndx(bytes);
      if ndx >= |raw.value| { return Err("Invalid shstrndx section index"); }
      var strtab := raw.value[ndx];
      if !SectionFits(bytes, strtab) { return Err("shstrtab exceeds file bounds"); }
      var sections := NameSections(raw.value, Contents(bytes, strtab));
      var symbols := ReadSymbols(bytes, sections);
      var g := Image(bytes, U64(bytes[24..32]), U64(bytes[32..40]), Shoff(bytes), U16(bytes[56..58]),
                     Shnum(bytes), ndx, sections, symbols);
      var p := new ElfPatcher(bytes, g);
      r := Ok(p);
    }

    // ---------- passes ----------

    method PatchOsAbi()
      requires data.Length >= 64
      modifies data
      ensures View() == OsAbi(old(View()))
      ensures data[7] == 102 && forall i :: 0 <= i < data.Length && i != 7 ==> data[i] == old(data[i])
    {
      data[7] := ELFOSABI_CELLLV2;
    }

    method KeepLoads() returns (valid: seq<Slot>)
      requires phnum == 0 || OldTableFits(View())
      ensures valid == if phnum == 0 then [] else Kept(data[..], phoff, phnum)
    {
      valid := [];
      for i := 0 to phnum
        invariant valid == if i == 0 then [] else Kept(data[..], phoff, i)
      {
        var offset := phoff + i * PHENTSIZE;
        if offset + PHENTSIZE <= data.Length {
          assert data[..][offset..offset + PHENTSIZE] == SlotAt(data[..], phoff, i);
          var ph := data[offset..offset + PHENTSIZE];
          if U32(ph[0..4]) == PT_LOAD {
            valid := valid + [Reflag(ph)];
          }
        }
      }
    }

    method InjectParams(loads: seq<Slot>) returns (valid: seq<Slot>)
      ensures valid == loads + Injected(sections)
    {
      hide ParamSlot;
      valid := loads;
      if ".sys_proc_param" in sections {
        valid := valid + [ParamSlot(PT_SCE_PROC_PARAM, sections[".sys_proc_param"], 8)];
      }
      if ".sys_proc_prx_param" in sections {
        valid := valid + [ParamSlot(PT_SCE_PROC_PRX_PARAM, sections[".sys_proc_prx_param"], 4)];
      }
    }

    method WriteSlots(valid: seq<Slot>)
      requires valid == [] || phoff + PHENTSIZE * |valid| <= data.Length
      modifies data
      ensures data[..] == if valid == [] then old(data[..]) else Put(old(data[..]), phoff, Flat(valid))
    {
      ghost var d := data[..];
      for i := 0 to |valid|
        invariant data[..] == if i == 0 then d else Put(d, phoff, Flat(valid[..i]))
      {
        assert i == 0 ==> d == Put(d, phoff, Flat(valid[..i]));
        CopyFromSlice(phoff + i * PHENTSIZE, valid[i]);
        PutJoin(d, phoff, Flat(valid[..i]), valid[i]);
        assert valid[..i + 1][..i] == valid[..i];
      }
      assert valid[..|valid|] == valid;
    }

    /** The slots of the new table and the zeroes behind them are its one write. */
    static lemma {:induction false} TableWritten(g: Image, w: seq<byte>, r: seq<byte>)
      requires TableFits(g)
      requires var s := NewSlots(g); w == if s == [] then g.data else Put(g.data, g.phoff, Flat(s))
      requires var n, m := |NewSlots(g)|, Slots(g);
        r == if n == m then w else Put(w, g.phoff + PHENTSIZE * n, Zeros(PHENTSIZE * (m - n)))
      ensures r == Put(g.data, g.phoff, NewTable(g))
    {
      hide Put, Flat, Zeros, NewSlots;
      var s, z := NewSlots(g), Zeros(PHENTSIZE * (Slots(g) - |NewSlots(g)|));
      PutJoin(g.data, g.phoff, Flat(s), z);
      if s == [] { PutNone(g.data, g.phoff); }
      if |z| == 0 { PutNone(w, g.phoff + PHENTSIZE * |s|); }
    }

    /** Zeroes slots `from..to`. */
    method ZeroSlots(from: nat, to: nat)
      requires from <= to && (from == to || phoff + PHENTSIZE * to <= data.Length)
      modifies data
      ensures var d := old(data[..]);
        data[..] == if from == to then d else Put(d, phoff + PHENTSIZE * from, Zeros(PHENTSIZE * (to - from)))
    {
      hide Put;
      ghost var d, at := data[..], phoff + PHENTSIZE * from;
      for i := from to to
        invariant data[..] == if i == from then d else Put(d, at, Zeros(PHENTSIZE * (i - from)))
      {
        if i == from { PutNone(d, at); }
        ghost var done, z := Zeros(PHENTSIZE * (i - from)), Zeros(PHENTSIZE);
        assert i == from ==> done == [];
        CopyFromSlice(phoff + i * PHENTSIZE, Zeros(PHENTSIZE));
        PutJoin(d, at, done, z);
        assert done + z == Zeros(PHENTSIZE * (i + 1 - from));
      }
    }

    method SanitizeAndInjectPhdrs() returns (n: nat)
      requires data.Length >= 64 && HeadersFit(View())
      modifies this`phnum, data
      ensures View() == RewriteHeaders(old(View()))
      ensures n == if TableFits(old(View())) then |NewSlots(old(View()))| else 0
      ensures TableFits(old(View())) && TableClearOfHeader(old(View())) ==>
        && AddedAre(old(View()), data[..])
        && forall i :: 0 <= i < old(phnum) && IsLoad(old(View()), i) ==> KeptIs(old(View()), data[..], i)
    {
      hide Put, Flat, Kept, Injected, BE, Zeros;
      ghost var g := View();
      var valid := KeepLoads();
      valid := InjectParams(valid);
      n := |valid|;
      WriteSlots(valid);
      ghost var w := data[..];
      ZeroSlots(n, Max(phnum, n));
      if TableFits(g) { TableWritten(g, w, data[..]); }
      phnum := n % 0x1_0000;
      CopyFromSlice(56, BE(phnum, 2));
      if TableFits(g) && TableClearOfHeader(g) { HeadersDone(g); }
    }

    method CollectHeaders(order: seq<string>) returns (hs: seq<Header>)
      requires forall k :: k in order ==> k in symbols
      ensures hs == Collect(symbols, order)
    {
      hs := [];
      for i := 0 to |order|
        invariant hs == Collect(symbols, order[..i])
      {
        var lib := StripSuffix(order[i], "_prx_header");
        if lib.Some? { hs := hs + [Header(lib.value, symbols[order[i]])]; }
        assert order[..i + 1][..i] == order[..i];
      }
      assert order[..|order|] == order;
    }

    /** `order` is the order in which iterating the symbol map yields its keys. */
    method PatchLibStubs(order: seq<string>) returns (n: nat)
      requires Enumerates(order, symbols) && StubSumsFit(View())
      modifies data
      ensures View() == LibStubs(old(View()), order)
      ensures n == if HasStubs(old(View())) then sections[LIB_STUB].size / HEADER_SIZE else 0
    {
      hide BindHeader, SortByAddr, Collect;
      if LIB_STUB !in sections { return 0; }
      var s := sections[LIB_STUB];
      n := s.size / HEADER_SIZE;
      if n == 0 { return; }
      var found := CollectHeaders(order);
      var hs := SortByAddr(found);
      for i := 0 to |hs|
        invariant data[..] == BindAll(symbols, s, hs[..i], old(data[..]))
      {
        assert hs[..i + 1][..i] == hs[..i];
        var h := hs[i];
        if h.addr < s.addr || h.addr >= s.addr + s.size { continue; }
        var off := s.offset + (h.addr - s.addr);
        if off + HEADER_SIZE > data.Length { continue; }
        PatchHeader(h.lib, off);
      }
      assert hs[..|hs|] == hs;
    }

    method PatchHeader(lib: string, off: nat)
      requires off + HEADER_SIZE <= data.Length
      modifies data
      ensures data[..] == BindHeader(symbols, lib, off, old(data[..]))
      ensures HeaderIs(data[..], old(data[..]), off, symbols, lib)
    {
      hide Put, HeaderIs;
      BindHeaderIs(symbols, lib, off, data[..]);
      var namePtr := Pointer(symbols, lib + "_name");
      var fnidPtr := Pointer(symbols, lib + "_fnid_table");
      var fstubPtr := Pointer(symbols, lib + "_fstub_table");
      assert data[..][off + 6..off + 8] == data[off + 6..off + 8];
      var stored := U16(data[off + 6..off + 8]);
      var numImports := stored;
      if numImports == 0 {
        var start, end := Lookup(symbols, lib + "_fstub_table"), Lookup(symbols, lib + "_fstub_table_end");
        if start.Some? && end.Some? {
          numImports := (SatSub(end.value, start.value) / 4) % 0x1_0000;
        }
      }
      if namePtr != 0 { CopyFromSlice(off + 16, BE(namePtr, 4)); }
      if fnidPtr != 0 { CopyFromSlice(off + 20, BE(fnidPtr, 4)); }
      if fstubPtr != 0 { CopyFromSlice(off + 24, BE(fstubPtr, 4)); }
      if numImports != 0 { CopyFromSlice(off + 6, BE(numImports, 2)); }
    }

    method PatchDescriptor(i: nat, start: u64)
      requires ".opd" in sections && start == StartCode(View())
      requires sections[".opd"].offset + DESCRIPTOR_SIZE * (i + 1) <= data.Length
      modifies data
      ensures View() == old(View()).(data := OpdStep(old(View()), i, old(data[..])))
      ensures DescriptorIs(old(View()), data[..], i)
    {
      hide Put, BE, U64, Pack, Lo32, StartCode, DescriptorIs;
      StepWords(View(), i);
      var s := sections[".opd"];
      var offset := s.offset + i * DESCRIPTOR_SIZE;
      assert data[offset..offset + 8] == data[..][offset..offset + 8];
      assert data[offset + 8..offset + 16] == data[..][offset + 8..offset + 16];
      var func, toc := U64(data[offset..offset + 8]), U64(data[offset + 8..offset + 16]);
      if s.addr + i * DESCRIPTOR_SIZE == entryPoint || (start != 0 && func == start) {
        CopyFromSlice(offset, BE(Lo32(func), 4));
        CopyFromSlice(offset + 4, BE(Lo32(toc), 4));
        CopyFromSlice(offset + 16, BE(Pack(func, toc), 8));
      } else {
        CopyFromSlice(offset + 16, BE(Pack(func, toc), 8));
      }
    }

    method PatchOpdDescriptors() returns (r: Result<nat>)
      requires OpdSumsFit(View())
      modifies data
      ensures View() == Opd(old(View())) && r == OpdResult(old(View()))
      ensures forall i :: 0 <= i < DescriptorCount(old(View())) && InFile(old(View()), i) ==>
        DescriptorIs(old(View()), data[..], i)
    {
      hide OpdStep;
      DescriptorsDone(View());
      if ".opd" !in sections { return Ok(0); }
      var s := sections[".opd"];
      var count := s.size / DESCRIPTOR_SIZE;
      if count == 0 { return Ok(0); }
      var start := Lookup(symbols, "_start").GetOr(0);
      ghost var g := View();
      for i := 0 to count
        invariant i == 0 || s.offset + DESCRIPTOR_SIZE * i <= data.Length
        invariant View() == g.(data := OpdUpTo(g, i, g.data))
      {
        if s.offset + i * DESCRIPTOR_SIZE + DESCRIPTOR_SIZE > data.Length {
          return Err(".opd entry exceeds file size");
        }
        OpdStepSameMeta(g, View(), i, data[..]);
        PatchDescriptor(i, start);
      }
      r := Ok(count);
    }

    method PatchPrxParams()
      requires PrxParamsFit(View()) && BoundSumsFit(View())
      modifies data
      ensures View() == PrxParams(old(View()))
      ensures ".sys_proc_prx_param" in sections && sections[".sys_proc_prx_param"].size >= 40 ==>
        ParamsAre(old(View()), data[..])
    {
      hide Put, BE, Start, End;
      if ".sys_proc_prx_param" in sections && sections[".sys_proc_prx_param"].size >= 40 { ParamBounds(View()); }
      if ".sys_proc_prx_param" !in sections { return; }
      var s := sections[".sys_proc_prx_param"];
      if s.size < 0x28 { return; }
      WriteBounds(s.offset + 16, Start(sections, ".lib.ent"), End(sections, ".lib.ent"),
                  Start(sections, LIB_STUB), End(sections, LIB_STUB));
    }

    method WriteBounds(at: nat, a: u32, b: u32, c: u32, e: u32)
      requires at + 16 <= data.Length
      modifies data
      ensures data[..] == Put(old(data[..]), at, BE(a, 4) + BE(b, 4) + BE(c, 4) + BE(e, 4))
    {
      ghost var d := data[..];
      CopyFromSlice(at, BE(a, 4));
      CopyFromSlice(at + 4, BE(b, 4));
      PutJoin(d, at, BE(a, 4), BE(b, 4));
      CopyFromSlice(at + 8, BE(c, 4));
      PutJoin(d, at, BE(a, 4) + BE(b, 4), BE(c, 4));
      CopyFromSlice(at + 12, BE(e, 4));
      PutJoin(d, at, BE(a, 4) + BE(b, 4) + BE(c, 4), BE(e, 4));
    }
  }

  /** `patch_elf_file` from the bytes read to the bytes written. */
  method PatchElfFile(bytes: seq<byte>, order: seq<string>) returns (r: Result<seq<byte>>)
    requires Indexable(bytes)
    requires Parse(bytes).Ok? ==> NoPanic(Parse(bytes).value) && Enumerates(order, Parse(bytes).value.symbols)
    ensures r == PatchFile(bytes, order)
  {
    hide OsAbi, RewriteHeaders, LibStubs, Opd, PrxParams, HeadersFit, Indexable, Parse;
    var loaded := ElfPatcher.New(bytes);
    if loaded.Err? { return Err(loaded.message); }
    var p := loaded.value;
    p.PatchOsAbi();
    var phdrs := p.SanitizeAndInjectPhdrs();
    var stubs := p.PatchLibStubs(order);
    var opd := p.PatchOpdDescriptors();
    if opd.Err? { return Err(opd.message); }
    p.PatchPrxParams();
    r := Ok(p.data[..]);
  }
}
