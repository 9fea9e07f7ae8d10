/** The part of a big-endian 64-bit PowerPC a trampoline uses. */
module Machine {
  import opened Bytes
  import opened Instructions
  import opened Assembly
  import opened Loader

  type Gprs = r: seq<u64> | |r| == 32 witness seq(32, _ => 0)

  datatype State = State(pc: u64, lr: u64, ctr: u64, gpr: Gprs, mem: map<nat, byte>)

  // ---------- memory ----------

  function Load64(m: map<nat, byte>, a: nat): u64 { U64(Read(m, a, 8)) }

  predicate Spans(a: nat, n: nat, x: nat) { a <= x < a + n }

  function Store(m: map<nat, byte>, a: nat, bs: seq<byte>): (r: map<nat, byte>)
    ensures forall x: nat :: ByteAt(r, x) == if a <= x < a + |bs| then bs[x - a] else ByteAt(m, x)
  {
    m + map x: nat | a <= x < a + |bs| && Spans(a, |bs|, x) :: bs[x - a]
  }

  lemma {:induction false} ReadStored(m: map<nat, byte>, a: nat, bs: seq<byte>)
    ensures Read(Store(m, a, bs), a, |bs|) == bs
  {
  }

  /** The memories agree on `n` bytes at `a`. */
  ghost predicate SameBytes(m: map<nat, byte>, p: map<nat, byte>, a: nat, n: nat) {
    forall x: nat :: a <= x < a + n ==> ByteAt(m, x) == ByteAt(p, x)
  }

  lemma {:induction false} SameRead(m: map<nat, byte>, p: map<nat, byte>, a: nat, n: nat)
    requires SameBytes(m, p, a, n)
    ensures Read(m, a, n) == Read(p, a, n)
  {
    hide ByteAt;
  }

  lemma {:induction false} ReadOther(m: map<nat, byte>, a: nat, bs: seq<byte>, b: nat, n: nat)
    requires b + n <= a || a + |bs| <= b
    ensures Read(Store(m, a, bs), b, n) == Read(m, b, n)
  {
  }

  // ---------- instructions ----------

  function Wrap(x: int): u64 { x % TWO64 }

  /** A base register operand: register 0 reads as zero. */
  function Base(s: State, ra: Reg): u64 { if ra == 0 then 0 else s.gpr[ra] }

  function Address(s: State, d: int, ra: Reg): u64 { Wrap(Base(s, ra) + d) }

  /** Executes one relocated instruction. */
  function Exec(i: Insn, s: State): State
    requires !Toc(i)
  {
    var next := s.(pc := Wrap(s.pc + 4));
    match i
    case Mflr(t) => next.(gpr := s.gpr[t := s.lr])
    case Mtlr(r) => next.(lr := s.gpr[r])
    case Mtctr(r) => next.(ctr := s.gpr[r])
    case Std(r, d, a) => next.(mem := Store(s.mem, Address(s, d, a), BE(s.gpr[r], 8)))
    case Stdu(r, d, a) =>
      next.(mem := Store(s.mem, Address(s, d, a), BE(s.gpr[r], 8)), gpr := s.gpr[a := Address(s, d, a)])
    case Ld(t, d, a) => next.(gpr := s.gpr[t := Load64(s.mem, Address(s, d, a))])
    case Lwz(t, d, a) => next.(gpr := s.gpr[t := Word(s.mem, Address(s, d, a))])
    case Addi(t, a, si) => next.(gpr := s.gpr[t := Wrap(Base(s, a) + si)])
    case Addis(t, a, si) => next.(gpr := s.gpr[t := Wrap(Base(s, a) + si * 0x1_0000)])
    case Bctrl => s.(lr := Wrap(s.pc + 4), pc := s.ctr - s.ctr % 4)
    case Blr => s.(pc := s.lr - s.lr % 4)
  }

  // Instructions whose address and program counter do not wrap.

  lemma {:induction false} StdStep(s: State, r: Reg, d: int, a: Reg, at: u64)
    requires a != 0 && s.gpr[a] + d == at && s.pc + 4 < TWO64
    ensures Exec(Std(r, d, a), s) == s.(pc := s.pc + 4, mem := Store(s.mem, at, BE(s.gpr[r], 8)))
  {
    hide Store, BE;
  }

  lemma {:induction false} StduStep(s: State, r: Reg, d: int, a: Reg, at: u64)
    requires a != 0 && s.gpr[a] + d == at && s.pc + 4 < TWO64
    ensures Exec(Stdu(r, d, a), s)
         == s.(pc := s.pc + 4, mem := Store(s.mem, at, BE(s.gpr[r], 8)), gpr := s.gpr[a := at])
  {
    hide Store, BE;
  }

  lemma {:induction false} LwzStep(s: State, t: Reg, d: int, a: Reg, at: u64)
    requires a != 0 && s.gpr[a] + d == at && s.pc + 4 < TWO64
    ensures Exec(Lwz(t, d, a), s) == s.(pc := s.pc + 4, gpr := s.gpr[t := Word(s.mem, at)])
  {
    hide Word;
  }

  lemma {:induction false} LdStep(s: State, t: Reg, d: int, a: Reg, at: u64)
    requires a != 0 && s.gpr[a] + d == at && s.pc + 4 < TWO64
    ensures Exec(Ld(t, d, a), s) == s.(pc := s.pc + 4, gpr := s.gpr[t := Load64(s.mem, at)])
  {
    hide Load64;
  }

  lemma {:induction false} AddiStep(s: State, t: Reg, a: Reg, si: int, v: u64)
    requires a != 0 && Wrap(s.gpr[a] + si) == v && s.pc + 4 < TWO64
    ensures Exec(Addi(t, a, si), s) == s.(pc := s.pc + 4, gpr := s.gpr[t := v])
  {
  }

  lemma {:induction false} AddisStep(s: State, t: Reg, a: Reg, si: int)
    requires a != 0 && s.pc + 4 < TWO64
    ensures Exec(Addis(t, a, si), s) == s.(pc := s.pc + 4, gpr := s.gpr[t := Wrap(s.gpr[a] + si * 0x1_0000)])
  {
  }

  lemma {:induction false} CallStep(s: State)
    requires s.pc + 4 < TWO64
    ensures Exec(Bctrl, s) == s.(lr := s.pc + 4, pc := s.ctr - s.ctr % 4)
  {
  }

  lemma {:induction false} ReturnStep(s: State)
    ensures Exec(Blr, s) == s.(pc := s.lr - s.lr % 4)
  {
  }

  lemma {:induction false} MoveStep(s: State, r: Reg)
    requires s.pc + 4 < TWO64
    ensures Exec(Mflr(r), s) == s.(pc := s.pc + 4, gpr := s.gpr[r := s.lr])
    ensures Exec(Mtlr(r), s) == s.(pc := s.pc + 4, lr := s.gpr[r])
    ensures Exec(Mtctr(r), s) == s.(pc := s.pc + 4, ctr := s.gpr[r])
  {
  }

  predicate Runs(insns: seq<Insn>) {
    forall k :: 0 <= k < |insns| ==> !Toc(insns[k])
  }

  /** Executes straight-line code. */
  function ExecAll(insns: seq<Insn>, s: State): State
    requires Runs(insns)
  {
    if insns == [] then s
    else
      var n := |insns| - 1;
      Exec(insns[n], ExecAll(insns[..n], s))
  }

  lemma {:induction false} ExecNext(insns: seq<Insn>, n: nat, s: State)
    requires n < |insns| && Runs(insns)
    ensures Runs(insns[..n]) && Runs(insns[..n + 1])
    ensures ExecAll(insns[..n + 1], s) == Exec(insns[n], ExecAll(insns[..n], s))
  {
    hide Exec;
    assert insns[..n + 1][..n] == insns[..n];
  }

  lemma {:induction false} DecodedRuns(w: u32)
    ensures Decode(w).Some? ==> !Toc(Decode(w).value)
  {
    if Decode(w).Some? { DecodeInverts(Decode(w).value, w); }
  }

  /** The machine fetches and decodes the word at the program counter; it stops
      at a word it does not know. Code and data share the memory. */
  function Steps(s: State, n: nat): State {
    if n == 0 then s
    else
      var m := Steps(s, n - 1);
      var w := Word(m.mem, m.pc);
      DecodedRuns(w);
      var i := Decode(w);
      if i.Some? then Exec(i.value, m) else m
  }

  predicate Straight(i: Insn) { !i.Bctrl? && !i.Blr? && !Toc(i) }

  lemma {:induction false} StraightPc(i: Insn, s: State)
    requires Straight(i)
    ensures Exec(i, s).pc == Wrap(s.pc + 4)
  {
    hide Address, Store, Word, Load64, BE;
  }

  lemma {:induction false} NoStore(i: Insn, s: State)
    requires !Toc(i) && !i.Std? && !i.Stdu?
    ensures Exec(i, s).mem == s.mem
  {
    hide Address, Store, Word, Load64, BE;
  }

  /** The words at the program counter are those of `insns`, each still when it
      is its turn, and only the last one may branch. */
  predicate BlockAt(s: State, insns: seq<Insn>) {
    && s.pc + 4 * |insns| <= TWO64 && Runs(insns)
    && (forall k :: 0 <= k < |insns| ==> StillAt(s, insns, k))
    && (forall k :: 0 <= k < |insns| - 1 ==> Straight(insns[k]))
  }

  predicate StillAt(s: State, insns: seq<Insn>, k: nat)
    requires Runs(insns) && k < |insns|
  {
    assert Runs(insns[..k]);
    WordAt(ExecAll(insns[..k], s).mem, s.pc + 4 * k, insns[k])
  }

  predicate WordAt(m: map<nat, byte>, a: nat, i: Insn) {
    Fits(i) && Word(m, a) as int == InsnWord(i)
  }

  /** Fetching and executing a block is executing its instructions in order. */
  lemma {:induction false} RunBlock(insns: seq<Insn>, s: State, n: nat)
    requires BlockAt(s, insns) && n <= |insns|
    ensures Runs(insns[..n]) && Steps(s, n) == ExecAll(insns[..n], s)
    ensures n < |insns| ==> Steps(s, n).pc == s.pc + 4 * n
  {
    hide Exec, Word, Decode, InsnWord, Fits;
    if n > 0 {
      RunBlock(insns, s, n - 1);
      ExecNext(insns, n - 1, s);
      assert StillAt(s, insns, n - 1);
      DecodeInverts(insns[n - 1], Word(Steps(s, n - 1).mem, s.pc + 4 * (n - 1)));
      if n < |insns| { StraightPc(insns[n - 1], Steps(s, n - 1)); }
    }
  }
}
