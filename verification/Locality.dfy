/** Which bytes each pass reads and writes. */
module Locality {
  import opened Bytes
  import opened Elf
  import opened Passes

  /** Equal wherever the inputs were equal. */
  ghost predicate Agrees(d: seq<byte>, e: seq<byte>, d': seq<byte>, e': seq<byte>)
    requires |d| == |e| == |d'| == |e'|
  {
    forall i :: 0 <= i < |d| && d[i] == e[i] ==> d'[i] == e'[i]
  }

  lemma {:induction false} KeptLocal(d: seq<byte>, e: seq<byte>, phoff: nat, n: nat)
    requires phoff + PHENTSIZE * n <= |d| == |e|
    requires forall i :: phoff <= i < phoff + PHENTSIZE * n ==> d[i] == e[i]
    ensures Kept(d, phoff, n) == Kept(e, phoff, n)
  {
    hide Reflag, U32;
    if n > 0 {
      KeptLocal(d, e, phoff, n - 1);
      assert SlotAt(d, phoff, n - 1) == SlotAt(e, phoff, n - 1);
    }
  }

  // ---------- import headers ----------

  /** The import count and the three pointers of the header at `off`. */
  predicate HeaderField(off: nat, i: nat) {
    off + 6 <= i < off + 8 || off + 16 <= i < off + 28
  }

  lemma {:induction false} PutNonzeroFrame(d: seq<byte>, off: nat, v: nat, n: nat)
    requires off + n <= |d|
    ensures forall i :: 0 <= i < |d| && !(off <= i < off + n) ==> PutNonzero(d, off, v, n)[i] == d[i]
  {
    hide BE;
  }

  lemma {:induction false} BindHeaderFrame(symbols: map<string, u64>, lib: string, off: nat, d: seq<byte>)
    requires off + HEADER_SIZE <= |d|
    ensures forall i :: 0 <= i < |d| && !HeaderField(off, i) ==> BindHeader(symbols, lib, off, d)[i] == d[i]
  {
    hide PutNonzero, U16;
    var p, q, r := Pointer(symbols, lib + "_name"), Pointer(symbols, lib + "_fnid_table"),
        Pointer(symbols, lib + "_fstub_table");
    var d1 := PutNonzero(d, off + 16, p, 4);
    var d2 := PutNonzero(d1, off + 20, q, 4);
    var d3 := PutNonzero(d2, off + 24, r, 4);
    var c := ImportCount(symbols, lib, U16(d[off + 6..off + 8]));
    PutNonzeroFrame(d, off + 16, p, 4);
    PutNonzeroFrame(d1, off + 20, q, 4);
    PutNonzeroFrame(d2, off + 24, r, 4);
    PutNonzeroFrame(d3, off + 6, c, 2);
  }

  lemma {:induction false} PutNonzeroAgrees(d: seq<byte>, e: seq<byte>, off: nat, v: nat, n: nat)
    requires |d| == |e| && off + n <= |d|
    ensures Agrees(d, e, PutNonzero(d, off, v, n), PutNonzero(e, off, v, n))
  {
    hide BE;
  }

  lemma {:induction false} BindHeaderAgrees(symbols: map<string, u64>, lib: string, off: nat, d: seq<byte>,
      e: seq<byte>)
    requires |d| == |e| && off + HEADER_SIZE <= |d| && d[off + 6..off + 8] == e[off + 6..off + 8]
    ensures Agrees(d, e, BindHeader(symbols, lib, off, d), BindHeader(symbols, lib, off, e))
  {
    hide PutNonzero, U16;
    var p, q, r := Pointer(symbols, lib + "_name"), Pointer(symbols, lib + "_fnid_table"),
        Pointer(symbols, lib + "_fstub_table");
    var d1, e1 := PutNonzero(d, off + 16, p, 4), PutNonzero(e, off + 16, p, 4);
    var d2, e2 := PutNonzero(d1, off + 20, q, 4), PutNonzero(e1, off + 20, q, 4);
    var d3, e3 := PutNonzero(d2, off + 24, r, 4), PutNonzero(e2, off + 24, r, 4);
    PutNonzeroAgrees(d, e, off + 16, p, 4);
    PutNonzeroAgrees(d1, e1, off + 20, q, 4);
    PutNonzeroAgrees(d2, e2, off + 24, r, 4);
    PutNonzeroAgrees(d3, e3, off + 6, ImportCount(symbols, lib, U16(d[off + 6..off + 8])), 2);
  }

  /** Byte `i` is a patched field of some header in `hs` that gets bound. */
  ghost predicate StubField(s: Section, len: nat, hs: seq<Header>, i: nat) {
    exists h :: h in hs && Binds(s, len, h) && HeaderField(HeaderOffset(s, h), i)
  }

  lemma {:induction false} BindAllFrame(symbols: map<string, u64>, s: Section, hs: seq<Header>, d: seq<byte>)
    ensures forall i :: 0 <= i < |d| && !StubField(s, |d|, hs, i) ==> BindAll(symbols, s, hs, d)[i] == d[i]
  {
    hide BindHeader, HeaderField, HeaderOffset;
    if hs != [] {
      var rest, h := hs[..|hs| - 1], hs[|hs| - 1];
      BindAllFrame(symbols, s, rest, d);
      var mid := BindAll(symbols, s, rest, d);
      if Binds(s, |d|, h) { BindHeaderFrame(symbols, h.lib, HeaderOffset(s, h), mid); }
      forall i | 0 <= i < |d| && !StubField(s, |d|, hs, i)
        ensures BindAll(symbols, s, hs, d)[i] == d[i]
      {
        assert forall k :: k in rest ==> k in hs;
        assert h in hs;
      }
    }
  }

  lemma {:induction false} BindAllAgrees(symbols: map<string, u64>, s: Section, hs: seq<Header>, d: seq<byte>,
      e: seq<byte>)
    requires |d| == |e|
    requires forall i :: 0 <= i < |d| && StubField(s, |d|, hs, i) ==> d[i] == e[i]
    ensures Agrees(d, e, BindAll(symbols, s, hs, d), BindAll(symbols, s, hs, e))
  {
    hide BindHeader;
    if hs != [] {
      var rest, h := hs[..|hs| - 1], hs[|hs| - 1];
      assert h in hs && forall k :: k in rest ==> k in hs;
      forall i | 0 <= i < |d| && StubField(s, |d|, rest, i) ensures StubField(s, |d|, hs, i) {}
      BindAllAgrees(symbols, s, rest, d, e);
      var d1, e1 := BindAll(symbols, s, rest, d), BindAll(symbols, s, rest, e);
      if Binds(s, |d|, h) {
        var off := HeaderOffset(s, h);
        assert StubField(s, |d|, hs, off + 6) by { assert HeaderField(HeaderOffset(s, h), off + 6); }
        assert StubField(s, |d|, hs, off + 7) by { assert HeaderField(HeaderOffset(s, h), off + 7); }
        assert d1[off + 6..off + 8] == e1[off + 6..off + 8];
        BindHeaderAgrees(symbols, h.lib, off, d1, e1);
      }
    }
  }

  // ---------- descriptors ----------

  function OpdBase(g: Image): nat {
    if ".opd" in g.sections then g.sections[".opd"].offset else 0
  }

  function OpdDone(g: Image): nat {
    Fitting(OpdBase(g), OpdCount(g), |g.data|)
  }

  predicate OpdByte(g: Image, i: nat) {
    OpdBase(g) <= i < OpdBase(g) + DESCRIPTOR_SIZE * OpdDone(g)
  }

  lemma {:induction false} OpdStepFrame(g: Image, n: nat, d: seq<byte>)
    requires ".opd" in g.sections && OpdBase(g) + DESCRIPTOR_SIZE * (n + 1) <= |d|
    ensures forall i :: 0 <= i < |d| && !(OpdBase(g) + DESCRIPTOR_SIZE * n <= i < OpdBase(g) + DESCRIPTOR_SIZE * (n + 1))
              ==> OpdStep(g, n, d)[i] == d[i]
  {
    hide BE, FuncAt, TocAt;
  }

  lemma {:induction false} OpdStepAgrees(g: Image, n: nat, d: seq<byte>, e: seq<byte>)
    requires ".opd" in g.sections && OpdBase(g) + DESCRIPTOR_SIZE * (n + 1) <= |d| == |e|
    requires var o := OpdBase(g) + DESCRIPTOR_SIZE * n; d[o..o + 16] == e[o..o + 16]
    ensures Agrees(d, e, OpdStep(g, n, d), OpdStep(g, n, e))
  {
    hide BE, U64;
    var o := OpdBase(g) + DESCRIPTOR_SIZE * n;
    assert d[o..o + 8] == d[o..o + 16][..8] && d[o + 8..o + 16] == d[o..o + 16][8..];
    assert e[o..o + 8] == e[o..o + 16][..8] && e[o + 8..o + 16] == e[o..o + 16][8..];
  }

  lemma {:induction false} OpdUpToFrame(g: Image, n: nat, d: seq<byte>)
    requires n == 0 || (".opd" in g.sections && OpdBase(g) + DESCRIPTOR_SIZE * n <= |d|)
    ensures forall i :: 0 <= i < |d| && !(OpdBase(g) <= i < OpdBase(g) + DESCRIPTOR_SIZE * n)
              ==> OpdUpTo(g, n, d)[i] == d[i]
  {
    hide OpdStep;
    if n > 0 {
      OpdUpToFrame(g, n - 1, d);
      OpdStepFrame(g, n - 1, OpdUpTo(g, n - 1, d));
    }
  }

  lemma {:induction false} OpdUpToAgrees(g: Image, n: nat, d: seq<byte>, e: seq<byte>)
    requires |d| == |e|
    requires n == 0 || (".opd" in g.sections && OpdBase(g) + DESCRIPTOR_SIZE * n <= |d|)
    requires forall i :: 0 <= i < |d| && OpdBase(g) <= i < OpdBase(g) + DESCRIPTOR_SIZE * n ==> d[i] == e[i]
    ensures Agrees(d, e, OpdUpTo(g, n, d), OpdUpTo(g, n, e))
  {
    hide OpdStep;
    if n > 0 {
      OpdUpToAgrees(g, n - 1, d, e);
      var o := OpdBase(g) + DESCRIPTOR_SIZE * (n - 1);
      var d1, e1 := OpdUpTo(g, n - 1, d), OpdUpTo(g, n - 1, e);
      assert d1[o..o + 16] == e1[o..o + 16];
      OpdStepAgrees(g, n - 1, d1, e1);
    }
  }
}
