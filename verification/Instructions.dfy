/** Instruction words: relocating the two TOC halves, and decoding. */
module Instructions {
  import opened Bytes
  import opened Wrappers
  import opened Assembly

  // ---------- TOC-relative operands ----------

  /** `@toc@ha` and `@toc@l` of an offset, as 16-bit fields. */
  function Ha(off: int): u16 { ((off + 0x8000) / 0x1_0000) % 0x1_0000 }
  function Lo(off: int): u16 { off % 0x1_0000 }

  function Sext(x: u16): int { if x >= 0x8000 then x - 0x1_0000 else x }

  /** `addis` with the high half and `addi` with the low half add up to the
      offset exactly when it is within a signed 32-bit reach. */
  lemma {:induction false} HaLoReach(off: int)
    ensures Sext(Ha(off)) * 0x1_0000 + Sext(Lo(off)) == off <==> -0x8000_8000 <= off < 0x7FFF_8000
  {
    var q, l := (off + 0x8000) / 0x1_0000, off % 0x1_0000;
    assert off == q * 0x1_0000 + Sext(Lo(off));
  }

  /** The instruction waits for the linker. */
  predicate Toc(i: Insn) { i.AddisTocHa? || i.AddiTocLo? }

  /** What relocation makes of an instruction; `offsets` gives the distance of
      each symbol from the TOC base. */
  function Resolve(i: Insn, offsets: map<string, int>): Insn {
    match i
    case AddisTocHa(t, a, y) => Addis(t, a, if y in offsets then Sext(Ha(offsets[y])) else 0)
    case AddiTocLo(t, a, y) => Addi(t, a, if y in offsets then Sext(Lo(offsets[y])) else 0)
    case _ => i
  }

  /** The instructions of the trampoline whose slot is `off` bytes from the TOC base. */
  function LinkedStub(off: int): (r: seq<Insn>)
    ensures |r| == 16
  {
    [Mflr(0), Std(0, 16, 1), Std(2, 40, 1), Stdu(1, -128, 1),
     Addis(12, 2, Sext(Ha(off))), Addi(12, 12, Sext(Lo(off))),
     Lwz(12, 0, 12), Lwz(0, 0, 12), Lwz(2, 4, 12), Mtctr(0), Bctrl,
     Addi(1, 1, 128), Ld(2, 40, 1), Ld(0, 16, 1), Mtlr(0), Blr]
  }

  lemma {:induction false} StubResolves(f: string, offsets: map<string, int>, k: nat)
    requires f + "_stub" in offsets && k < 16
    ensures Resolve(StubInsns(f)[k], offsets) == LinkedStub(offsets[f + "_stub"])[k]
  {
    hide Ha, Lo, Sext;
  }

  // ---------- instruction words ----------

  predicate Signed16(x: int) { -0x8000 <= x < 0x8000 }

  /** A relocated instruction whose operands fit their fields. */
  predicate Fits(i: Insn) {
    match i
    case Std(_, d, _) => Signed16(d) && d % 4 == 0
    case Stdu(_, d, _) => Signed16(d) && d % 4 == 0
    case Ld(_, d, _) => Signed16(d) && d % 4 == 0
    case Lwz(_, d, _) => Signed16(d)
    case Addi(_, _, si) => Signed16(si)
    case Addis(_, _, si) => Signed16(si)
    case _ => !Toc(i)
  }

  /** The instruction with these fields; only those a trampoline uses are known. */
  function DecodeFields(op: nat, t: Reg, a: Reg, imm: u16): Option<Insn> {
    if op == 14 then Some(Addi(t, a, Sext(imm)))
    else if op == 15 then Some(Addis(t, a, Sext(imm)))
    else if op == 32 then Some(Lwz(t, Sext(imm), a))
    else if op == 58 && imm % 4 == 0 then Some(Ld(t, Sext(imm), a))
    else if op == 62 && imm % 4 == 0 then Some(Std(t, Sext(imm), a))
    else if op == 62 && imm % 4 == 1 then Some(Stdu(t, Sext(imm - 1), a))
    else if op == 31 && a == 8 && imm == 0x02A6 then Some(Mflr(t))
    else if op == 31 && a == 8 && imm == 0x03A6 then Some(Mtlr(t))
    else if op == 31 && a == 9 && imm == 0x03A6 then Some(Mtctr(t))
    else if op == 19 && t == 20 && a == 0 && imm == 0x0421 then Some(Bctrl)
    else if op == 19 && t == 20 && a == 0 && imm == 0x0020 then Some(Blr)
    else None
  }

  function Decode(w: u32): Option<Insn> {
    DecodeFields(w / 0x400_0000, (w / 0x20_0000) % 32, (w / 0x1_0000) % 32, w % 0x1_0000)
  }

  lemma {:induction false} ModFour(d: int)
    requires d % 4 == 0
    ensures (d % 0x1_0000) % 4 == 0 && d % 0x1_0000 + 1 < 0x1_0000 && (d % 0x1_0000 + 1) % 4 == 1
  {
  }

  lemma {:induction false} SextField(x: u16, d: int)
    ensures Sext(x) % 0x1_0000 == x && Signed16(Sext(x)) && (x % 4 == 0 ==> Sext(x) % 4 == 0)
    ensures Signed16(d) ==> Sext(d % 0x1_0000) == d
  {
  }

  /** A word has one set of fields. */
  lemma {:induction false} FieldsOf(op: nat, t: nat, a: nat, imm: nat)
    requires op < 64 && t < 32 && a < 32 && imm < 0x1_0000
    ensures var w := op * 0x400_0000 + t * 0x20_0000 + a * 0x1_0000 + imm;
      w < TWO32 && w / 0x400_0000 == op && (w / 0x20_0000) % 32 == t && (w / 0x1_0000) % 32 == a && w % 0x1_0000 == imm
  {
    var w := op * 0x400_0000 + t * 0x20_0000 + a * 0x1_0000 + imm;
    assert w / 0x1_0000 == op * 0x400 + t * 0x20 + a;
    assert w / 0x20_0000 == op * 0x20 + t;
  }

  lemma {:induction false} WordOf(w: u32)
    ensures var op, t, a, imm := w / 0x400_0000, (w / 0x20_0000) % 32, (w / 0x1_0000) % 32, w % 0x1_0000;
      w == op * 0x400_0000 + t * 0x20_0000 + a * 0x1_0000 + imm && op < 64
  {
    var q := w / 0x1_0000;
    assert w / 0x20_0000 == q / 32 && w / 0x400_0000 == q / 0x400;
    assert q / 0x400 == (q / 32) / 32;
  }

  /** Recombining the fields of a word. */
  lemma {:induction false} DecodesFields(op: nat, t: Reg, a: Reg, imm: u16)
    requires op < 64
    ensures var w := op * 0x400_0000 + t * 0x20_0000 + a * 0x1_0000 + imm;
      w < TWO32 && Decode(w) == DecodeFields(op, t, a, imm)
  {
    hide DecodeFields;
    FieldsOf(op, t, a, imm);
  }

  /** The doubleword loads and stores keep two more opcode bits beside the offset. */
  lemma {:induction false} DecodesDouble(i: Insn)
    requires Fits(i) && (i.Std? || i.Stdu? || i.Ld?)
    ensures InsnWord(i) < TWO32 && Decode(InsnWord(i)) == Some(i)
  {
    hide Sext, Decode;
    match i
    case Std(t, d, a) => DecodesFields(62, t, a, d % 0x1_0000); ModFour(d); SextField(0, d);
    case Stdu(t, d, a) => DecodesFields(62, t, a, d % 0x1_0000 + 1); ModFour(d); SextField(0, d);
    case Ld(t, d, a) => DecodesFields(58, t, a, d % 0x1_0000); ModFour(d); SextField(0, d);
  }

  lemma {:induction false} DecodesWord(i: Insn)
    requires Fits(i)
    ensures InsnWord(i) < TWO32 && Decode(InsnWord(i)) == Some(i)
  {
    hide Sext, Decode;
    match i
    case Mflr(t) => DecodesFields(31, t, 8, 0x02A6);
    case Mtlr(t) => DecodesFields(31, t, 8, 0x03A6);
    case Mtctr(t) => DecodesFields(31, t, 9, 0x03A6);
    case Std(_, _, _) => DecodesDouble(i);
    case Stdu(_, _, _) => DecodesDouble(i);
    case Ld(_, _, _) => DecodesDouble(i);
    case Lwz(t, d, a) => DecodesFields(32, t, a, d % 0x1_0000); SextField(0, d);
    case Addi(t, a, d) => DecodesFields(14, t, a, d % 0x1_0000); SextField(0, d);
    case Addis(t, a, d) => DecodesFields(15, t, a, d % 0x1_0000); SextField(0, d);
    case Bctrl => DecodesFields(19, 20, 0, 0x0421);
    case Blr => DecodesFields(19, 20, 0, 0x0020);
  }

  lemma {:induction false} FieldsEncode(op: nat, t: Reg, a: Reg, imm: u16)
    requires DecodeFields(op, t, a, imm).Some?
    ensures var i := DecodeFields(op, t, a, imm).value;
      Fits(i) && InsnWord(i) == op * 0x400_0000 + t * 0x20_0000 + a * 0x1_0000 + imm
  {
    hide Sext;
    SextField(imm, 0);
    if imm % 4 == 1 { SextField(imm - 1, 0); }
  }

  lemma {:induction false} WordDecodes(w: u32)
    requires Decode(w).Some?
    ensures Fits(Decode(w).value) && InsnWord(Decode(w).value) == w
  {
    hide DecodeFields, InsnWord, Fits;
    WordOf(w);
    FieldsEncode(w / 0x400_0000, (w / 0x20_0000) % 32, (w / 0x1_0000) % 32, w % 0x1_0000);
  }

  /** Words and instructions: decoding inverts assembling, both ways. */
  lemma {:induction false} DecodeInverts(i: Insn, w: u32)
    ensures Decode(w) == Some(i) <==> Fits(i) && InsnWord(i) == w
  {
    hide Decode, Fits, InsnWord;
    if Fits(i) { DecodesWord(i); }
    if Decode(w).Some? { WordDecodes(w); }
  }
}
