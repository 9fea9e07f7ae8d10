/** The import trampoline is transparent to caller and callee
    (64-bit PowerPC ELF ABI Supplement 1.9, sections 3.2.2 and 3.2.5). */
module Trampoline {
  import opened Bytes
  import opened Assembly
  import opened Instructions
  import opened Loader
  import opened Machine

  /** A call that can work, of a trampoline whose slot is `off` bytes from the
      TOC base: a stack with room for a frame and its caller's linkage area, a
      slot within TOC reach, and a stub, slot and descriptor that do not lie in
      the stack area the stub writes. */
  predicate CanCall(s: State, off: int, desc: u32) {
    && 128 <= s.gpr[1] && s.gpr[1] + 48 <= TWO64
    && s.pc + 64 <= TWO64 && s.pc % 4 == 0
    && -0x8000_8000 <= off < 0x7FFF_8000
    && var slot := SlotAddress(s, off);
    && 0 <= slot && slot + 4 <= TWO32 && desc + 8 <= TWO32
    && OffStack(s, s.pc, 64) && OffStack(s, slot, 4) && OffStack(s, desc, 8)
  }

  function SlotAddress(s: State, off: int): int { s.gpr[2] + off }

  /** ... and whose slot holds the descriptor address `desc`. */
  predicate CallOk(s: State, off: int, desc: u32) {
    CanCall(s, off, desc) && Word(s.mem, SlotAddress(s, off)) == desc
  }

  predicate OffStack(s: State, a: nat, n: nat)
    requires 128 <= s.gpr[1]
  {
    a + n <= s.gpr[1] - 128 || s.gpr[1] + 48 <= a
  }

  function Enter(off: int): (r: seq<Insn>)
    ensures |r| == 11
  {
    LinkedStub(off)[..11]
  }

  function Leave(off: int): (r: seq<Insn>)
    ensures |r| == 5
  {
    LinkedStub(off)[11..]
  }

  /** The state in which the callee starts. */
  function AtCallee(s: State, desc: u32): State
    requires 128 <= s.gpr[1] && s.gpr[1] + 48 <= TWO64
  {
    var r1 := s.gpr[1];
    var entry, toc := Word(s.mem, desc), Word(s.mem, desc + 4);
    State(entry - entry % 4, Wrap(s.pc + 44), entry, s.gpr[12 := desc][0 := entry][2 := toc][1 := r1 - 128],
          FrameMem(s, 3))
  }

  /** The memory after `k` of the three stores that build the frame. */
  function FrameMem(s: State, k: nat): map<nat, byte>
    requires 128 <= s.gpr[1] && s.gpr[1] + 48 <= TWO64
  {
    var r1 := s.gpr[1];
    if k == 0 then s.mem
    else if k == 1 then Store(s.mem, r1 + 16, BE(s.lr, 8))
    else if k == 2 then Store(FrameMem(s, 1), r1 + 40, BE(s.gpr[2], 8))
    else Store(FrameMem(s, 2), r1 - 128, BE(r1, 8))
  }

  // ---------- entering ----------

  lemma {:induction false} StubRuns(off: int)
    ensures Runs(LinkedStub(off)) && Runs(Enter(off)) && Runs(Leave(off))
  {
    hide Ha, Lo, Sext;
  }

  /** The four instructions that build the frame. */
  lemma {:induction false} Frame(s: State, off: int, desc: u32)
    requires CallOk(s, off, desc)
    ensures forall k :: 0 <= k <= 4 ==> Runs(LinkedStub(off)[..k])
    ensures forall k :: 1 <= k <= 4 ==> ExecAll(LinkedStub(off)[..k], s).mem == FrameMem(s, k - 1)
    ensures ExecAll(LinkedStub(off)[..4], s)
         == State(s.pc + 16, s.lr, s.ctr, s.gpr[0 := s.lr][1 := s.gpr[1] - 128], AtCallee(s, desc).mem)
  {
    hide Word, Load64, BE, Store, SlotAddress, ExecAll, OffStack, Exec, Ha, Lo, Sext;
    var i := LinkedStub(off);
    StubRuns(off);
    var r1, g0 := s.gpr[1], s.gpr[0 := s.lr];
    var m1, m2 := FrameMem(s, 1), FrameMem(s, 2);
    var s1, s2 := State(s.pc + 4, s.lr, s.ctr, g0, s.mem), State(s.pc + 8, s.lr, s.ctr, g0, m1);
    var s3 := State(s.pc + 12, s.lr, s.ctr, g0, m2);
    NoCode(i, s);
    ExecNext(i, 0, s); ExecNext(i, 1, s); ExecNext(i, 2, s); ExecNext(i, 3, s);
    MoveStep(s, 0); StdStep(s1, 0, 16, 1, r1 + 16); StdStep(s2, 2, 40, 1, r1 + 40);
    StduStep(s3, 1, -128, 1, r1 - 128);
  }

  lemma {:induction false} NoCode(i: seq<Insn>, s: State)
    requires Runs(i[..0])
    ensures ExecAll(i[..0], s) == s
  {
  }

  /** The stub's own stores do not reach the stub, the slot or the descriptor. */
  lemma {:induction false} StoresMiss(s: State, k: nat, a: nat, n: nat)
    requires 128 <= s.gpr[1] && s.gpr[1] + 48 <= TWO64 && OffStack(s, a, n)
    ensures Read(FrameMem(s, k), a, n) == Read(s.mem, a, n)
  {
    hide Store, BE, Read;
    var r1 := s.gpr[1];
    ReadOther(s.mem, r1 + 16, BE(s.lr, 8), a, n);
    ReadOther(FrameMem(s, 1), r1 + 40, BE(s.gpr[2], 8), a, n);
    ReadOther(FrameMem(s, 2), r1 - 128, BE(r1, 8), a, n);
  }

  lemma {:induction false} WrapSum(x: int, y: int)
    requires 0 <= x + y < TWO64
    ensures Wrap(Wrap(x) + y) == x + y
  {
  }

  /** Adding the two TOC halves finds the slot. */
  lemma {:induction false} SlotFound(s: State, off: int, desc: u32)
    requires CallOk(s, off, desc)
    ensures Wrap(Wrap(s.gpr[2] + Sext(Ha(off)) * 0x1_0000) + Sext(Lo(off))) == SlotAddress(s, off)
  {
    hide Word, Ha, Lo, Wrap, OffStack;
    HaLoReach(off);
    WrapSum(s.gpr[2] + Sext(Ha(off)) * 0x1_0000, Sext(Lo(off)));
  }

  /** The three instructions that load the descriptor address. */
  lemma {:induction false} FindDescriptor(s: State, off: int, desc: u32)
    requires CallOk(s, off, desc)
    ensures Runs(LinkedStub(off)[..7])
    ensures ExecAll(LinkedStub(off)[..7], s)
         == State(s.pc + 28, s.lr, s.ctr, s.gpr[0 := s.lr][1 := s.gpr[1] - 128][12 := desc], AtCallee(s, desc).mem)
  {
    hide U32, Load64, BE, Store, ExecAll, Runs, Read, Ha, Lo, Sext, AtCallee, Exec, Wrap, OffStack, SlotAddress;
    var i, slot := LinkedStub(off), SlotAddress(s, off);
    StubRuns(off);
    Frame(s, off, desc);
    SlotFound(s, off, desc);
    StoresMiss(s, 3, slot, 4);
    ExecNext(i, 4, s); ExecNext(i, 5, s); ExecNext(i, 6, s);
    var g4, m := s.gpr[0 := s.lr][1 := s.gpr[1] - 128], AtCallee(s, desc).mem;
    var s4 := State(s.pc + 16, s.lr, s.ctr, g4, m);
    var s5 := State(s.pc + 20, s.lr, s.ctr, g4[12 := Wrap(s.gpr[2] + Sext(Ha(off)) * 0x1_0000)], m);
    var s6 := State(s.pc + 24, s.lr, s.ctr, g4[12 := slot], m);
    AddisStep(s4, 12, 2, Sext(Ha(off))); AddiStep(s5, 12, 12, Sext(Lo(off)), slot); LwzStep(s6, 12, 0, 12, slot);
    assert s5.gpr[12 := slot] == s6.gpr;
    assert s6.gpr[12 := desc] == g4[12 := desc];
  }

  /** Entering: the callee starts with its own TOC and the caller's arguments. */
  lemma {:induction false} EntersCallee(s: State, off: int, desc: u32)
    requires CallOk(s, off, desc)
    ensures Runs(Enter(off)) && ExecAll(Enter(off), s) == AtCallee(s, desc)
  {
    hide U32, Load64, BE, Store, ExecAll, Runs, Read, SlotAddress, Exec;
    var i := LinkedStub(off);
    StubRuns(off);
    FindDescriptor(s, off, desc);
    StoresMiss(s, 3, desc, 4);
    StoresMiss(s, 3, desc + 4, 4);
    ExecNext(i, 7, s); ExecNext(i, 8, s); ExecNext(i, 9, s); ExecNext(i, 10, s);
    var c := AtCallee(s, desc);
    var g7 := s.gpr[0 := s.lr][1 := s.gpr[1] - 128][12 := desc];
    var s7 := State(s.pc + 28, s.lr, s.ctr, g7, c.mem);
    var s8 := State(s.pc + 32, s.lr, s.ctr, g7[0 := c.gpr[0]], c.mem);
    var s9 := State(s.pc + 36, s.lr, s.ctr, c.gpr, c.mem);
    LwzStep(s7, 0, 0, 12, desc); LwzStep(s8, 2, 4, 12, desc + 4); MoveStep(s9, 0);
    assert s8.gpr[2 := c.gpr[2]] == c.gpr;
    CallStep(State(s.pc + 40, s.lr, c.ctr, c.gpr, c.mem));
  }

  // ---------- the callee ----------

  /** What the ABI asks of a callee that starts in `s` and returns in `t`: it
      returns to the link register, restores the stack pointer and the
      non-volatile registers, and leaves alone the linkage area of the frame
      behind its caller's frame, which the back chain points to. */
  ghost predicate Obeys(s: State, t: State) {
    && t.pc == s.lr - s.lr % 4 && t.gpr[1] == s.gpr[1]
    && (forall k :: 14 <= k < 32 ==> t.gpr[k] == s.gpr[k])
    && var frame := Load64(s.mem, s.gpr[1]);
       SameBytes(t.mem, s.mem, frame, 48)
  }

  /** The saved words the stub relies on. */
  lemma {:induction false} SavedWords(s: State, desc: u32)
    requires 128 <= s.gpr[1] && s.gpr[1] + 48 <= TWO64
    ensures var c, r1 := AtCallee(s, desc), s.gpr[1];
      Load64(c.mem, r1 - 128) == r1 && Load64(c.mem, r1 + 16) == s.lr && Load64(c.mem, r1 + 40) == s.gpr[2]
  {
    hide Store, BE, Read, U64;
    var r1 := s.gpr[1];
    var m1, m2 := FrameMem(s, 1), FrameMem(s, 2);
    ReadStored(s.mem, r1 + 16, BE(s.lr, 8));
    ReadStored(m1, r1 + 40, BE(s.gpr[2], 8));
    ReadStored(m2, r1 - 128, BE(r1, 8));
    ReadOther(m1, r1 + 40, BE(s.gpr[2], 8), r1 + 16, 8);
    ReadOther(m2, r1 - 128, BE(r1, 8), r1 + 16, 8);
    ReadOther(m2, r1 - 128, BE(r1, 8), r1 + 40, 8);
    FieldRoundTrip64(s.lr); FieldRoundTrip64(s.gpr[2]); FieldRoundTrip64(r1);
  }

  /** After the callee, the saved words are still there. */
  lemma {:induction false} SavedWordsKept(s: State, desc: u32, t: State)
    requires 128 <= s.gpr[1] && s.gpr[1] + 48 <= TWO64 && Obeys(AtCallee(s, desc), t)
    ensures Load64(t.mem, s.gpr[1] + 16) == s.lr && Load64(t.mem, s.gpr[1] + 40) == s.gpr[2]
    ensures t.gpr[1] == s.gpr[1] - 128
  {
    hide Read, U64, Store, BE, ByteAt;
    SavedWords(s, desc);
    var c, r1 := AtCallee(s, desc), s.gpr[1];
    SameRead(t.mem, c.mem, r1 + 16, 8);
    SameRead(t.mem, c.mem, r1 + 40, 8);
  }

  /** The state the call of `s` ends in when its callee has left `t`. */
  function AtCaller(s: State, t: State): State {
    State(s.lr - s.lr % 4, s.lr, t.ctr, t.gpr[0 := s.lr][1 := s.gpr[1]][2 := s.gpr[2]], t.mem)
  }

  /** Leaving: stack pointer, TOC and link register are the caller's again, and
      everything else is as the callee left it. */
  lemma {:induction false} LeavesToCaller(s: State, off: int, desc: u32, t: State)
    requires CallOk(s, off, desc) && Obeys(AtCallee(s, desc), t)
    ensures Runs(Leave(off))
    ensures ExecAll(Leave(off), t) == AtCaller(s, t)
  {
    hide Read, U64, Store, BE, ByteAt, Word, ExecAll, Runs, Load64, SlotAddress, Exec;
    SavedWordsKept(s, desc, t);
    StubRuns(off);
    var i := Leave(off);
    NoCode(i, t);
    ExecNext(i, 0, t); ExecNext(i, 1, t); ExecNext(i, 2, t); ExecNext(i, 3, t); ExecNext(i, 4, t);
    assert i[..5] == i;
    var r1 := s.gpr[1];
    var g1, g2 := t.gpr[1 := r1], t.gpr[1 := r1][2 := s.gpr[2]];
    var g3 := g2[0 := s.lr];
    var t1, t2 := State(t.pc + 4, t.lr, t.ctr, g1, t.mem), State(t.pc + 8, t.lr, t.ctr, g2, t.mem);
    var t3 := State(t.pc + 12, t.lr, t.ctr, g3, t.mem);
    AddiStep(t, 1, 1, 128, r1); LdStep(t1, 2, 40, 1, r1 + 40); LdStep(t2, 0, 16, 1, r1 + 16);
    MoveStep(t3, 0); ReturnStep(State(t.pc + 16, s.lr, t.ctr, g3, t.mem));
    assert g3 == t.gpr[0 := s.lr][1 := r1][2 := s.gpr[2]];
  }

  // ---------- the theorem ----------

  /** The words of the trampoline are in memory at `base`. */
  predicate StubAt(m: map<nat, byte>, off: int, base: nat) {
    forall k :: 0 <= k < 16 ==> Word(m, base + 4 * k) as int == InsnWord(LinkedStub(off)[k])
  }

  /** Eleven fetched and decoded words later the callee named by the descriptor
      runs, with r3..r10 and r13..r31 untouched, its own TOC in r2, the return
      address inside the trampoline and a frame of its own below the caller's. */
  ghost predicate Enters(s: State, desc: u32) {
    var c := Steps(s, 11);
    && c.pc == Word(s.mem, desc) - Word(s.mem, desc) % 4 && c.gpr[2] == Word(s.mem, desc + 4)
    && (forall k :: 3 <= k <= 10 ==> c.gpr[k] == s.gpr[k])
    && (forall k :: 13 <= k < 32 ==> c.gpr[k] == s.gpr[k])
    && c.lr as int == s.pc + 44 && c.gpr[1] as int == s.gpr[1] as int - 128 && Load64(c.mem, c.gpr[1]) == s.gpr[1]
  }

  /** Five words after the callee has left `t`, the caller of `s` continues with
      its r1, r2, LR and non-volatile registers, and with the callee's results. */
  ghost predicate Returns(s: State, t: State) {
    var r := Steps(t, 5);
    && r.pc == s.lr - s.lr % 4 && r.lr == s.lr && r.gpr[1] == s.gpr[1] && r.gpr[2] == s.gpr[2]
    && (forall k :: 3 <= k < 32 ==> r.gpr[k] == t.gpr[k])
    && (forall k :: 14 <= k < 32 ==> r.gpr[k] == s.gpr[k])
    && r.mem == t.mem
  }

  /** For every machine state with a trampoline at its program counter and every
      state `t` that an obedient callee leaves without overwriting that
      trampoline: the call is entered and returned from. */
  lemma {:induction false} Transparent(s: State, off: int, desc: u32, t: State)
    requires CallOk(s, off, desc) && StubAt(s.mem, off, s.pc)
    ensures Enters(s, desc)
    ensures Obeys(Steps(s, 11), t) && StubAt(t.mem, off, s.pc) ==> Returns(s, t)
  {
    hide Store, BE, Word, Load64, SlotAddress, Steps, StubAt;
    StepsEnter(s, off, desc);
    SavedWords(s, desc);
    if Obeys(AtCallee(s, desc), t) && StubAt(t.mem, off, s.pc) { StepsLeave(s, off, desc, t); }
  }

  lemma {:induction false} StepsEnter(s: State, off: int, desc: u32)
    requires CallOk(s, off, desc) && StubAt(s.mem, off, s.pc)
    ensures Steps(s, 11) == AtCallee(s, desc)
  {
    hide AtCallee, ExecAll, Runs, SlotAddress, Steps, Exec, BlockAt, StubAt, Enter, Word;
    EntersCallee(s, off, desc);
    EnterBlock(s, off, desc);
    RunBlock(Enter(off), s, 11);
    assert Enter(off)[..11] == Enter(off);
  }

  lemma {:induction false} StepsLeave(s: State, off: int, desc: u32, t: State)
    requires CallOk(s, off, desc) && StubAt(t.mem, off, s.pc) && Obeys(AtCallee(s, desc), t)
    ensures Steps(t, 5) == AtCaller(s, t)
  {
    hide ExecAll, Runs, SlotAddress, Steps, Exec, BlockAt, StubAt, Leave, FrameMem, Word, Load64, ByteAt, OffStack;
    LeavesToCaller(s, off, desc, t);
    LeaveBlock(t, off, s.pc);
    RunBlock(Leave(off), t, 5);
    assert Leave(off)[..5] == Leave(off);
  }

  // ---------- arguments on the stack ----------

  /** Where the ABI puts argument `9 + j` of a caller with stack pointer `r1`:
      behind the linkage area and the eight doublewords of the registers. */
  function ArgumentAt(r1: u64, j: nat): nat { r1 + 112 + 8 * j }

  /** What the callee finds as argument `9 + j`. With the stub's frame in between it
      looks at the caller's frame from 16 bytes below the stack pointer on, where
      the stub has saved the link register and the TOC. */
  function Found(s: State, j: nat): u64
    requires 128 <= s.gpr[1]
  {
    if j == 4 then s.lr else if j == 7 then s.gpr[2] else Load64(s.mem, s.gpr[1] as int - 16 + 8 * j)
  }

  lemma {:induction false} FoundArgument(s: State, desc: u32, j: nat)
    requires 128 <= s.gpr[1] && s.gpr[1] + 48 <= TWO64
    ensures Load64(FrameMem(s, 3), s.gpr[1] as int - 16 + 8 * j) == Found(s, j)
  {
    hide Store, BE, Read, U64;
    var r1 := s.gpr[1];
    var a := r1 as int - 16 + 8 * j;
    SavedWords(s, desc);
    if j != 4 && j != 7 {
      ReadOther(s.mem, r1 + 16, BE(s.lr, 8), a, 8);
      ReadOther(FrameMem(s, 1), r1 + 40, BE(s.gpr[2], 8), a, 8);
      ReadOther(FrameMem(s, 2), r1 - 128, BE(r1, 8), a, 8);
    }
  }

  /** Arguments on the stack do not follow the callee into the stub's frame: each
      arrives exactly when what it finds there happens to be equal. */
  lemma {:induction false} StackArgumentsExactly(s: State, off: int, desc: u32, j: nat)
    requires CallOk(s, off, desc) && StubAt(s.mem, off, s.pc)
    ensures var c := Steps(s, 11);
      && Load64(c.mem, ArgumentAt(c.gpr[1], j)) == Found(s, j)
      && (Load64(c.mem, ArgumentAt(c.gpr[1], j)) == Load64(s.mem, ArgumentAt(s.gpr[1], j))
          <==> Found(s, j) == Load64(s.mem, ArgumentAt(s.gpr[1], j)))
  {
    hide Steps, StubAt, SlotAddress, Word, Load64, FrameMem, Found;
    StepsEnter(s, off, desc);
    FoundArgument(s, desc, j);
  }

  /** The words of a trampoline. */
  function StubBytes(off: int): (r: seq<byte>)
    ensures |r| == 64
  {
    ConcatFixed(StubWords(off), 4, 16);
    assert StubWords(off)[..16] == StubWords(off);
    Concat(StubWords(off))
  }

  function StubWords(off: int): (r: seq<seq<byte>>)
    ensures |r| == 16 && forall k :: 0 <= k < 16 ==> |r[k]| == 4
  {
    seq(16, k requires 0 <= k < 16 => BE(InsnWord(LinkedStub(off)[k]), 4))
  }

  lemma {:induction false} StubStored(m: map<nat, byte>, off: int, base: nat)
    ensures StubAt(Store(m, base, StubBytes(off)), off, base)
  {
    hide Store, InsnWord, LinkedStub, BE, Concat, Fits, Decode;
    var p, bs := Store(m, base, StubBytes(off)), StubBytes(off);
    forall k | 0 <= k < 16 ensures Word(p, base + 4 * k) as int == InsnWord(LinkedStub(off)[k]) {
      var w := InsnWord(LinkedStub(off)[k]);
      ConcatAt(StubWords(off), k);
      ConcatFixed(StubWords(off), 4, k);
      ConcatFixed(StubWords(off), 4, k + 1);
      assert bs[4 * k..4 * k + 4] == BE(w, 4);
      var r := Read(p, base + 4 * k, 4);
      forall x | 0 <= x < 4 ensures r[x] == BE(w, 4)[x] { assert bs[4 * k..4 * k + 4][x] == bs[4 * k + x]; }
      assert r == BE(w, 4);
      StubFits(off, k);
      DecodesWord(LinkedStub(off)[k]);
      FieldRoundTrip32(w);
    }
  }

  /** Every one of them can be lost: a call whose argument `9 + j` is 1 and in
      which the callee finds something else. */
  lemma {:induction false} StackArgumentLost(j: nat) returns (s: State)
    ensures CallOk(s, 0x100, 0) && StubAt(s.mem, 0x100, s.pc) && Load64(s.mem, ArgumentAt(s.gpr[1], j)) == 1
    ensures Load64(Steps(s, 11).mem, ArgumentAt(Steps(s, 11).gpr[1], j)) != 1
  {
    hide Steps, StubAt, InsnWord, LinkedStub, StubBytes, Load64, Read;
    var r1: u64 := 0x1000_0000;
    var arg := map[ArgumentAt(r1, j) + 7 := 1 as byte];
    s := State(0x1000, 0, 0, seq(32, k => if k == 1 then r1 else if k == 2 then 0x2_0000 else 0),
               Store(arg, 0x1000, StubBytes(0x100)));
    StubStored(arg, 0x100, 0x1000);
    ArgumentIs(s, arg, j);
    StackArgumentsExactly(s, 0x100, 0, j);
  }

  lemma {:induction false} ArgumentIs(s: State, arg: map<nat, byte>, j: nat)
    requires s.gpr[1] == 0x1000_0000 && arg == map[ArgumentAt(s.gpr[1], j) + 7 := 1 as byte]
    requires s.mem == Store(arg, 0x1000, StubBytes(0x100))
    ensures Load64(s.mem, ArgumentAt(s.gpr[1], j)) == 1 && Load64(s.mem, s.gpr[1] as int - 16 + 8 * j) == 0
    ensures Word(s.mem, 0x2_0100) == 0
  {
    hide StubBytes, Store, U64, U32, BE;
    var a := ArgumentAt(s.gpr[1], j);
    ZeroRead(s.mem, s.gpr[1] as int - 16 + 8 * j, 8);
    ZeroRead(s.mem, 0x2_0100, 4);
    FieldRoundTrip64(0); FieldRoundTrip32(0); FieldRoundTrip64(1);
    OneBytes();
    assert Read(s.mem, a, 8) == BE(1, 8);
  }

  lemma {:induction false} ZeroRead(m: map<nat, byte>, a: nat, n: nat)
    requires forall x: nat :: a <= x < a + n ==> ByteAt(m, x) == 0
    ensures Read(m, a, n) == BE(0, n)
  {
    hide ByteAt;
    if n > 0 { ZeroRead(m, a, n - 1); }
  }

  lemma {:induction false} OneBytes()
    ensures BE(1, 8) == [0, 0, 0, 0, 0, 0, 0, 1]
  {
    assert BE(0, 1) == [0] && BE(0, 2) == [0, 0] && BE(0, 3) == [0, 0, 0] && BE(0, 4) == [0, 0, 0, 0];
    assert BE(0, 5) == [0, 0, 0, 0, 0] && BE(0, 6) == [0, 0, 0, 0, 0, 0] && BE(0, 7) == [0, 0, 0, 0, 0, 0, 0];
  }

  // ---------- the code stays in memory while it runs ----------

  lemma {:induction false} StubFits(off: int, k: nat)
    requires k < 16
    ensures Fits(LinkedStub(off)[k])
  {
    hide Ha, Lo;
  }

  /** Off the stack, memory is what it was, before each of the eleven. */
  lemma {:induction false} EnterKeeps(s: State, off: int, desc: u32, k: nat, a: nat)
    requires CallOk(s, off, desc) && k <= 11 && OffStack(s, a, 4)
    ensures Runs(LinkedStub(off)[..k]) && Word(ExecAll(LinkedStub(off)[..k], s).mem, a) == Word(s.mem, a)
  {
    hide Exec, OffStack, SlotAddress, FrameMem, Ha, Lo, Sext, Read, U32, ExecAll;
    var i := LinkedStub(off);
    if k == 0 {
      NoCode(i, s);
    } else if k <= 4 {
      Frame(s, off, desc);
      StoresMiss(s, k - 1, a, 4);
    } else {
      EnterKeeps(s, off, desc, k - 1, a);
      StubRuns(off);
      ExecNext(i, k - 1, s);
      NoStore(i[k - 1], ExecAll(i[..k - 1], s));
    }
  }

  lemma {:induction false} EnterBlock(s: State, off: int, desc: u32)
    requires CallOk(s, off, desc) && StubAt(s.mem, off, s.pc)
    ensures BlockAt(s, Enter(off))
  {
    hide Word, InsnWord, Fits, Sext, ExecAll, SlotAddress, Ha, Lo;
    StubRuns(off);
    forall k | 0 <= k < 11 ensures StillAt(s, Enter(off), k) {
      StubFits(off, k);
      EnterKeeps(s, off, desc, k, s.pc + 4 * k);
      assert Enter(off)[..k] == LinkedStub(off)[..k];
    }
  }

  lemma {:induction false} LeaveKeeps(t: State, off: int, k: nat)
    requires k <= 5
    ensures Runs(Leave(off)[..k]) && ExecAll(Leave(off)[..k], t).mem == t.mem
  {
    hide Exec, Ha, Lo, Sext, ExecAll;
    var i := Leave(off);
    StubRuns(off);
    if k == 0 {
      NoCode(i, t);
    } else {
      LeaveKeeps(t, off, k - 1);
      ExecNext(i, k - 1, t);
      NoStore(i[k - 1], ExecAll(i[..k - 1], t));
    }
  }

  lemma {:induction false} LeaveBlock(t: State, off: int, base: nat)
    requires base + 64 <= TWO64 && t.pc == base + 44 && StubAt(t.mem, off, base)
    ensures BlockAt(t, Leave(off))
  {
    hide Word, InsnWord, Fits, Sext, ExecAll, Ha, Lo;
    StubRuns(off);
    forall k | 0 <= k < 5 ensures StillAt(t, Leave(off), k) {
      StubFits(off, k + 11);
      LeaveKeeps(t, off, k);
      assert Leave(off)[k] == LinkedStub(off)[k + 11];
      assert t.pc + 4 * k == base + 4 * (k + 11);
    }
  }
}
