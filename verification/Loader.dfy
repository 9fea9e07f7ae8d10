/** A loader's view of a patched file: it finds the PRX parameter header, reads
    the import table bounds out of the loaded memory and walks the table in
    44-byte steps. The layout of parameter block and header is the one the
    comments of `moldier/src/main.rs` document. */
module Loader {
  import opened Bytes
  import opened Wrappers
  import opened Elf
  import opened Passes
  import opened ProgramHeaders
  import opened LoadImage

  /** One imported library: its functions' FNIDs and the addresses of the slots
      the loader is to fill. */
  datatype Import = Import(name: string, moduleId: u16, fnids: seq<u32>, slots: seq<nat>)

  function ByteAt(m: map<nat, byte>, a: nat): byte {
    if a in m then m[a] else 0
  }

  function Read(m: map<nat, byte>, a: nat, n: nat): (s: seq<byte>)
    ensures |s| == n && forall i :: 0 <= i < n ==> s[i] == ByteAt(m, a + i)
  {
    if n == 0 then [] else Read(m, a, n - 1) + [ByteAt(m, a + n - 1)]
  }

  /** Big-endian loads. */
  function Half(m: map<nat, byte>, a: nat): u16 { U16(Read(m, a, 2)) }
  function Word(m: map<nat, byte>, a: nat): u32 { U32(Read(m, a, 4)) }

  /** The NUL-terminated string at `a` in a 32-bit address space. */
  function CStr(m: map<nat, byte>, a: nat): seq<byte>
    decreases TWO32 - a
  {
    if a >= TWO32 || ByteAt(m, a) == 0 then [] else [ByteAt(m, a)] + CStr(m, a + 1)
  }

  function DecodeImport(m: map<nat, byte>, p: nat): Import {
    var count, fnids, slots := Half(m, p + 6), Word(m, p + 20), Word(m, p + 24);
    Import(Text(CStr(m, Word(m, p + 16))), Half(m, p + 4),
           seq(count, k requires 0 <= k < count => Word(m, fnids + 4 * k)),
           seq(count, k requires 0 <= k < count => slots + 4 * k))
  }

  function Walk(m: map<nat, byte>, p: nat, end: nat): seq<Import>
    decreases end - p
  {
    if p >= end then [] else [DecodeImport(m, p)] + Walk(m, p + HEADER_SIZE, end)
  }

  function FindKind(phs: seq<Phdr>, kind: u32): Option<Phdr> {
    if phs == [] then None
    else if phs[|phs| - 1].kind == kind then Some(phs[|phs| - 1])
    else FindKind(phs[..|phs| - 1], kind)
  }

  /** The program header table of a file, when it lies inside the file. */
  function FileTable(d: seq<byte>): Option<seq<Phdr>> {
    if |d| < 64 || U64(d[32..40]) + PHENTSIZE * U16(d[56..58]) > |d| then None
    else Some(Table(d, U64(d[32..40]), U16(d[56..58])))
  }

  /** The imports a file asks the loader for; `None` if it cannot be loaded. */
  function Imports(d: seq<byte>): Option<seq<Import>> {
    var phs := FileTable(d);
    if phs == None || !Loadable(phs.value, |d|) then None
    else
      var prx := FindKind(phs.value, PT_SCE_PROC_PRX_PARAM);
      if prx == None then None
      else
        var m := Memory(phs.value, d);
        Some(Walk(m, Word(m, prx.value.vaddr + 24), Word(m, prx.value.vaddr + 28)))
  }
}
