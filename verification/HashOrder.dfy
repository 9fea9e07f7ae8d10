/** Exactly when import binding depends on the order in which the hash map of
    symbols is iterated: when two libraries' headers share an address and
    disagree on what to write there. */
module HashOrder {
  import opened Bytes
  import opened Lists
  import opened Elf
  import opened Passes
  import opened Locality
  import opened Independence
  import opened Binding

  // ---------- the headers at one address ----------

  function AtAddr(hs: seq<Header>, a: u64): (r: seq<Header>) {
    if hs == [] then []
    else AtAddr(hs[..|hs| - 1], a) + if hs[|hs| - 1].addr == a then [hs[|hs| - 1]] else []
  }

  lemma {:induction false} AtAddrAppend(x: seq<Header>, y: seq<Header>, a: u64)
    ensures AtAddr(x + y, a) == AtAddr(x, a) + AtAddr(y, a)
  {
    if y == [] {
      assert x + y == x;
    } else {
      var n := |y| - 1;
      assert (x + y)[..|x| + n] == x + y[..n];
      AtAddrAppend(x, y[..n], a);
    }
  }

  lemma {:induction false} AtAddrOne(h: Header, a: u64)
    ensures AtAddr([h], a) == if h.addr == a then [h] else []
  {
    assert [h][..0] == [];
  }

  lemma {:induction false} AtAddrIn(hs: seq<Header>, a: u64, h: Header)
    ensures h in AtAddr(hs, a) <==> h in hs && h.addr == a
  {
    if hs != [] {
      var n := |hs| - 1;
      AtAddrIn(hs[..n], a, h);
      assert hs == hs[..n] + [hs[n]];
    }
  }

  lemma {:induction false} InsertKeepsGroup(hs: seq<Header>, h: Header, a: u64)
    ensures AtAddr(InsertByAddr(hs, h), a) == AtAddr(hs + [h], a)
  {
    hide AtAddr;
    AtAddrAppend(hs, [h], a);
    if hs == [] || hs[|hs| - 1].addr <= h.addr {
    } else {
      var init, last := hs[..|hs| - 1], hs[|hs| - 1];
      InsertKeepsGroup(init, h, a);
      AtAddrAppend(init, [h], a);
      AtAddrOne(h, a);
      AtAddrAppend(InsertByAddr(init, h), [last], a);
      AtAddrOne(last, a);
      assert hs == init + [last];
      AtAddrAppend(init, [last], a);
    }
  }

  /** The sort is stable: headers at one address keep their order. */
  lemma {:induction false} SortIsStable(hs: seq<Header>, a: u64)
    ensures AtAddr(SortByAddr(hs), a) == AtAddr(hs, a)
  {
    hide InsertByAddr, AtAddr;
    if hs != [] {
      var init, last := hs[..|hs| - 1], hs[|hs| - 1];
      SortIsStable(init, a);
      InsertKeepsGroup(SortByAddr(init), last, a);
      AtAddrAppend(SortByAddr(init), [last], a);
      AtAddrAppend(init, [last], a);
      assert hs == init + [last];
    }
  }

  // ---------- binding them one after the other ----------

  function BindSeq(symbols: map<string, u64>, hs: seq<Header>, off: nat, d: seq<byte>): (r: seq<byte>)
    requires off + HEADER_SIZE <= |d|
    ensures |r| == |d|
  {
    if hs == [] then d else BindHeader(symbols, hs[|hs| - 1].lib, off, BindSeq(symbols, hs[..|hs| - 1], off, d))
  }

  /** Binding on the same bytes gives the same bytes. */
  lemma {:induction false} BindHeaderSame(symbols: map<string, u64>, lib: string, off: nat, d: seq<byte>, e: seq<byte>)
    requires |d| == |e| && off + HEADER_SIZE <= |d| && d[off..off + HEADER_SIZE] == e[off..off + HEADER_SIZE]
    ensures BindHeader(symbols, lib, off, d)[off..off + HEADER_SIZE]
        == BindHeader(symbols, lib, off, e)[off..off + HEADER_SIZE]
  {
    hide BindHeader;
    forall i | off <= i < off + HEADER_SIZE ensures d[i] == e[i] {
      assert d[off..off + HEADER_SIZE][i - off] == e[off..off + HEADER_SIZE][i - off];
    }
    assert d[off + 6..off + 8] == e[off + 6..off + 8];
    BindHeaderAgrees(symbols, lib, off, d, e);
  }

  lemma {:induction false} BindHeaderElsewhere(symbols: map<string, u64>, lib: string, at: nat, off: nat, d: seq<byte>)
    requires at + HEADER_SIZE <= |d| && off + HEADER_SIZE <= |d| && (at + HEADER_SIZE <= off || off + HEADER_SIZE <= at)
    ensures BindHeader(symbols, lib, at, d)[off..off + HEADER_SIZE] == d[off..off + HEADER_SIZE]
  {
    hide BindHeader;
    BindHeaderFrame(symbols, lib, at, d);
  }

  /** One more header at the same place. */
  lemma {:induction false} GroupGrows(symbols: map<string, u64>, hs: seq<Header>, h: Header, off: nat, mid: seq<byte>,
      d: seq<byte>)
    requires |mid| == |d| && off + HEADER_SIZE <= |d|
    requires mid[off..off + HEADER_SIZE] == BindSeq(symbols, hs, off, d)[off..off + HEADER_SIZE]
    ensures BindHeader(symbols, h.lib, off, mid)[off..off + HEADER_SIZE]
        == BindSeq(symbols, hs + [h], off, d)[off..off + HEADER_SIZE]
  {
    hide BindHeader;
    assert (hs + [h])[..|hs|] == hs;
    BindHeaderSame(symbols, h.lib, off, mid, BindSeq(symbols, hs, off, d));
  }

  /** The bytes at a bound header are those of binding its group alone. */
  lemma {:induction false} GroupDecides(symbols: map<string, u64>, s: Section, hs: seq<Header>, d: seq<byte>, h: Header)
    requires Binds(s, |d|, h)
    requires forall b :: b in hs && Binds(s, |d|, b) ==>
      b.addr == h.addr || b.addr + HEADER_SIZE <= h.addr || h.addr + HEADER_SIZE <= b.addr
    ensures var off := HeaderOffset(s, h);
      BindAll(symbols, s, hs, d)[off..off + HEADER_SIZE]
        == BindSeq(symbols, AtAddr(hs, h.addr), off, d)[off..off + HEADER_SIZE]
  {
    hide BindHeader, BindSeq;
    if hs == [] {
      EmptyGroup(symbols, HeaderOffset(s, h), d);
    } else {
      var rest, last, off := hs[..|hs| - 1], hs[|hs| - 1], HeaderOffset(s, h);
      assert last in hs && forall b :: b in rest ==> b in hs;
      GroupDecides(symbols, s, rest, d, h);
      var mid, group := BindAll(symbols, s, rest, d), AtAddr(rest, h.addr);
      if last.addr == h.addr {
        GroupGrows(symbols, group, last, off, mid, d);
      } else {
        assert AtAddr(hs, h.addr) == group;
        if Binds(s, |d|, last) { BindHeaderElsewhere(symbols, last.lib, HeaderOffset(s, last), off, mid); }
      }
    }
  }

  lemma {:induction false} EmptyGroup(symbols: map<string, u64>, off: nat, d: seq<byte>)
    requires off + HEADER_SIZE <= |d|
    ensures BindSeq(symbols, [], off, d) == d
  {
  }

  // ---------- what a group writes ----------

  function LastNonzero(vs: seq<nat>): nat {
    if vs == [] then 0 else if vs[|vs| - 1] != 0 then vs[|vs| - 1] else LastNonzero(vs[..|vs| - 1])
  }

  function FirstNonzero(vs: seq<nat>): nat {
    if vs == [] then 0
    else if FirstNonzero(vs[..|vs| - 1]) != 0 then FirstNonzero(vs[..|vs| - 1]) else vs[|vs| - 1]
  }

  lemma {:induction false} LastIn(vs: seq<nat>)
    ensures LastNonzero(vs) != 0 ==> LastNonzero(vs) in vs
    ensures LastNonzero(vs) == 0 ==> forall v :: v in vs ==> v == 0
  {
    if vs != [] {
      LastIn(vs[..|vs| - 1]);
      assert vs == vs[..|vs| - 1] + [vs[|vs| - 1]];
    }
  }

  lemma {:induction false} FirstIn(vs: seq<nat>)
    ensures FirstNonzero(vs) != 0 ==> FirstNonzero(vs) in vs
    ensures FirstNonzero(vs) == 0 ==> forall v :: v in vs ==> v == 0
  {
    if vs != [] {
      FirstIn(vs[..|vs| - 1]);
      assert vs == vs[..|vs| - 1] + [vs[|vs| - 1]];
    }
  }

  lemma {:induction false} FirstStays(v: nat, vs: seq<nat>)
    requires v != 0
    ensures FirstNonzero([v] + vs) == v
  {
    if vs == [] {
      assert [v] + vs == [v] && [v][..0] == [];
    } else {
      assert ([v] + vs)[..|vs|] == [v] + vs[..|vs| - 1];
      FirstStays(v, vs[..|vs| - 1]);
    }
  }

  /** The three pointers, and the count a header with none stored gets. */
  datatype Part = NamePart | FnidPart | FstubPart | CountPart

  function PartValue(symbols: map<string, u64>, p: Part, h: Header): nat {
    match p
    case NamePart => Pointer(symbols, h.lib + "_name")
    case FnidPart => Pointer(symbols, h.lib + "_fnid_table")
    case FstubPart => Pointer(symbols, h.lib + "_fstub_table")
    case CountPart => ImportCount(symbols, h.lib, 0)
  }

  function PartValues(symbols: map<string, u64>, p: Part, hs: seq<Header>): (r: seq<nat>)
    ensures |r| == |hs| && forall i :: 0 <= i < |hs| ==> r[i] == PartValue(symbols, p, hs[i])
  {
    seq(|hs|, i requires 0 <= i < |hs| => PartValue(symbols, p, hs[i]))
  }

  lemma {:induction false} ValuesLast(symbols: map<string, u64>, p: Part, hs: seq<Header>)
    requires hs != []
    ensures PartValues(symbols, p, hs)[..|hs| - 1] == PartValues(symbols, p, hs[..|hs| - 1])
  {
    hide PartValue;
  }

  /** What the group leaves in a pointer field. */
  function Pointed(v: nat, was: seq<byte>): seq<byte> { if v != 0 then BE(v, 4) else was }

  lemma {:induction false} CountStored(symbols: map<string, u64>, lib: string, stored: u16)
    ensures ImportCount(symbols, lib, stored) == if stored != 0 then stored else ImportCount(symbols, lib, 0)
  {
  }

  /** The fields after binding a whole group. */
  lemma {:induction false} GroupFields(symbols: map<string, u64>, hs: seq<Header>, off: nat, d: seq<byte>)
    requires off + HEADER_SIZE <= |d|
    ensures var r, stored := BindSeq(symbols, hs, off, d), U16(d[off + 6..off + 8]);
      && r[off + 16..off + 20] == Pointed(LastNonzero(PartValues(symbols, NamePart, hs)), d[off + 16..off + 20])
      && r[off + 20..off + 24] == Pointed(LastNonzero(PartValues(symbols, FnidPart, hs)), d[off + 20..off + 24])
      && r[off + 24..off + 28] == Pointed(LastNonzero(PartValues(symbols, FstubPart, hs)), d[off + 24..off + 28])
      && U16(r[off + 6..off + 8]) as int == (if stored != 0 then stored else FirstNonzero(PartValues(symbols, CountPart, hs)))
      && (forall i :: 0 <= i < |d| && !HeaderField(off, i) ==> r[i] == d[i])
  {
    hide BindHeader, U16, BE, Pointer, ImportCount;
    if hs != [] {
      var init, last := hs[..|hs| - 1], hs[|hs| - 1];
      GroupFields(symbols, init, off, d);
      var m := BindSeq(symbols, init, off, d);
      BindHeaderFields(symbols, last.lib, off, m);
      BindHeaderFrame(symbols, last.lib, off, m);
      ValuesLast(symbols, NamePart, hs); ValuesLast(symbols, FnidPart, hs);
      ValuesLast(symbols, FstubPart, hs); ValuesLast(symbols, CountPart, hs);
      CountStored(symbols, last.lib, U16(m[off + 6..off + 8]));
    }
  }

  // ---------- when the groups of two orders leave the same bytes ----------

  predicate Agree(v: nat, w: nat) { v == 0 || w == 0 || v == w }

  /** The headers the pass binds. */
  ghost predicate IsBound(g: Image, h: Header) {
    LIB_STUB in g.sections && IsHeader(g.symbols, h) && Binds(g.sections[LIB_STUB], |g.data|, h)
  }

  /** Bound headers share their address or are a header apart. */
  ghost predicate SharedOrApart(g: Image) {
    forall a, b :: IsBound(g, a) && IsBound(g, b) ==>
      a.addr == b.addr || a.addr + HEADER_SIZE <= b.addr || b.addr + HEADER_SIZE <= a.addr
  }

  /** The count in the file before the pass. */
  function StoredCount(g: Image, h: Header): u16
    requires LIB_STUB in g.sections && Binds(g.sections[LIB_STUB], |g.data|, h)
  {
    var off := HeaderOffset(g.sections[LIB_STUB], h);
    U16(g.data[off + 6..off + 8])
  }

  /** No two nonzero values for one field: a count matters only when none is stored. */
  ghost predicate HeadersAgree(g: Image, a: Header, b: Header)
    requires IsBound(g, a)
  {
    && Agree(PartValue(g.symbols, NamePart, a), PartValue(g.symbols, NamePart, b))
    && Agree(PartValue(g.symbols, FnidPart, a), PartValue(g.symbols, FnidPart, b))
    && Agree(PartValue(g.symbols, FstubPart, a), PartValue(g.symbols, FstubPart, b))
    && (StoredCount(g, a) == 0 ==> Agree(PartValue(g.symbols, CountPart, a), PartValue(g.symbols, CountPart, b)))
  }

  ghost predicate NoConflict(g: Image) {
    forall a, b :: IsBound(g, a) && IsBound(g, b) && a.addr == b.addr ==> HeadersAgree(g, a, b)
  }

  lemma {:induction false} SameValue(symbols: map<string, u64>, p: Part, a: seq<Header>, b: seq<Header>)
    requires forall h :: h in a <==> h in b
    requires forall h, k :: h in a && k in a ==> Agree(PartValue(symbols, p, h), PartValue(symbols, p, k))
    ensures LastNonzero(PartValues(symbols, p, a)) == LastNonzero(PartValues(symbols, p, b))
    ensures FirstNonzero(PartValues(symbols, p, a)) == FirstNonzero(PartValues(symbols, p, b))
  {
    hide PartValue, LastNonzero, FirstNonzero;
    var v, w := PartValues(symbols, p, a), PartValues(symbols, p, b);
    LastIn(v); LastIn(w); FirstIn(v); FirstIn(w);
    ValueOfMember(symbols, p, a); ValueOfMember(symbols, p, b);
    assert forall x :: x in v <==> x in w;
    forall x, y | x in v && y in v ensures Agree(x, y) {
      var h, k :| h in a && k in a && PartValue(symbols, p, h) == x && PartValue(symbols, p, k) == y;
    }
  }

  lemma {:induction false} ValueOfMember(symbols: map<string, u64>, p: Part, hs: seq<Header>)
    ensures forall v :: v in PartValues(symbols, p, hs) <==> exists h :: h in hs && PartValue(symbols, p, h) == v
  {
    hide PartValue;
    var vs := PartValues(symbols, p, hs);
    forall h | h in hs ensures PartValue(symbols, p, h) in vs {
      var i :| 0 <= i < |hs| && hs[i] == h;
      assert vs[i] == PartValue(symbols, p, h);
    }
  }

  /** The headers at one address, in the order they are bound. */
  function Group(g: Image, order: seq<string>, a: u64): seq<Header>
    requires forall k :: k in order ==> k in g.symbols
  {
    AtAddr(Collect(g.symbols, order), a)
  }

  /** The bytes at a bound header, for one order. */
  lemma {:induction false} GroupLeft(g: Image, order: seq<string>, h: Header)
    requires Enumerates(order, g.symbols) && SharedOrApart(g) && IsBound(g, h) && HasStubs(g)
    ensures var off := HeaderOffset(g.sections[LIB_STUB], h);
      LibStubs(g, order).data[off..off + HEADER_SIZE]
        == BindSeq(g.symbols, Group(g, order, h.addr), off, g.data)[off..off + HEADER_SIZE]
    ensures forall k :: k in Group(g, order, h.addr) <==> IsHeader(g.symbols, k) && k.addr == h.addr
  {
    hide BindAll, BindSeq, SortByAddr, Collect, AtAddr;
    var hs := StubHeaders(g, order);
    StubHeadersAre(g, order);
    GroupDecides(g.symbols, g.sections[LIB_STUB], hs, g.data, h);
    SortIsStable(Collect(g.symbols, order), h.addr);
    forall k ensures k in Group(g, order, h.addr) <==> IsHeader(g.symbols, k) && k.addr == h.addr {
      AtAddrIn(hs, h.addr, k);
    }
  }

  /** Without a conflict two orders leave the same header. */
  lemma {:induction false} SameHeader(g: Image, order: seq<string>, other: seq<string>, h: Header)
    requires Enumerates(order, g.symbols) && Enumerates(other, g.symbols) && SharedOrApart(g)
    requires NoConflict(g) && IsBound(g, h) && HasStubs(g)
    ensures var off := HeaderOffset(g.sections[LIB_STUB], h);
      LibStubs(g, order).data[off..off + HEADER_SIZE] == LibStubs(g, other).data[off..off + HEADER_SIZE]
  {
    hide BindSeq, LibStubs, Group, PartValue, PartValues, LastNonzero, FirstNonzero, U16, BE;
    GroupLeft(g, order, h);
    GroupLeft(g, other, h);
    var off, a, b := HeaderOffset(g.sections[LIB_STUB], h), Group(g, order, h.addr), Group(g, other, h.addr);
    forall x, y | x in a && y in a ensures IsBound(g, x) && HeadersAgree(g, x, y) && StoredCount(g, x) == StoredCount(g, h) {}
    SameValue(g.symbols, NamePart, a, b);
    SameValue(g.symbols, FnidPart, a, b);
    SameValue(g.symbols, FstubPart, a, b);
    if StoredCount(g, h) == 0 { SameValue(g.symbols, CountPart, a, b); }
    SameSlice(g.symbols, a, b, off, g.data);
  }

  /** Groups with the same values leave the same bytes. */
  lemma {:induction false} SameSlice(symbols: map<string, u64>, a: seq<Header>, b: seq<Header>, off: nat, d: seq<byte>)
    requires off + HEADER_SIZE <= |d|
    requires LastNonzero(PartValues(symbols, NamePart, a)) == LastNonzero(PartValues(symbols, NamePart, b))
    requires LastNonzero(PartValues(symbols, FnidPart, a)) == LastNonzero(PartValues(symbols, FnidPart, b))
    requires LastNonzero(PartValues(symbols, FstubPart, a)) == LastNonzero(PartValues(symbols, FstubPart, b))
    requires U16(d[off + 6..off + 8]) == 0 ==>
      FirstNonzero(PartValues(symbols, CountPart, a)) == FirstNonzero(PartValues(symbols, CountPart, b))
    ensures BindSeq(symbols, a, off, d)[off..off + HEADER_SIZE] == BindSeq(symbols, b, off, d)[off..off + HEADER_SIZE]
  {
    hide BindSeq, PartValues, LastNonzero, FirstNonzero, U16, BE;
    GroupFields(symbols, a, off, d);
    GroupFields(symbols, b, off, d);
    var r, t := BindSeq(symbols, a, off, d), BindSeq(symbols, b, off, d);
    SameU16(r[off + 6..off + 8], t[off + 6..off + 8]);
    SameFields(r, t, d, off);
  }

  lemma {:induction false} SameFields(r: seq<byte>, t: seq<byte>, d: seq<byte>, off: nat)
    requires |r| == |t| == |d| && off + HEADER_SIZE <= |d|
    requires r[off + 6..off + 8] == t[off + 6..off + 8] && r[off + 16..off + 20] == t[off + 16..off + 20]
    requires r[off + 20..off + 24] == t[off + 20..off + 24] && r[off + 24..off + 28] == t[off + 24..off + 28]
    requires forall i :: 0 <= i < |d| && !HeaderField(off, i) ==> r[i] == d[i] && t[i] == d[i]
    ensures r[off..off + HEADER_SIZE] == t[off..off + HEADER_SIZE]
  {
    SliceAt(r, t, off + 6, off + 8);
    SliceAt(r, t, off + 16, off + 20);
    SliceAt(r, t, off + 20, off + 24);
    SliceAt(r, t, off + 24, off + 28);
  }

  lemma {:induction false} SliceAt(r: seq<byte>, t: seq<byte>, lo: nat, hi: nat)
    requires lo <= hi <= |r| == |t| && r[lo..hi] == t[lo..hi]
    ensures forall i :: lo <= i < hi ==> r[i] == t[i]
  {
    forall i | lo <= i < hi ensures r[i] == t[i] { assert r[i] == r[lo..hi][i - lo] && t[i] == t[lo..hi][i - lo]; }
  }

  lemma {:induction false} NoConflictAgrees(g: Image, order: seq<string>, other: seq<string>)
    requires Enumerates(order, g.symbols) && Enumerates(other, g.symbols) && SharedOrApart(g)
    requires HasStubs(g) ==> NoConflict(g)
    ensures LibStubs(g, order) == LibStubs(g, other)
  {
    hide BindAll, StubHeaders, HeaderOffset, NoConflict, SharedOrApart;
    if HasStubs(g) {
      var s, hs, ks := g.sections[LIB_STUB], StubHeaders(g, order), StubHeaders(g, other);
      StubHeadersAre(g, order);
      StubHeadersAre(g, other);
      BindAllFrame(g.symbols, s, hs, g.data);
      BindAllFrame(g.symbols, s, ks, g.data);
      var r, t := LibStubs(g, order).data, LibStubs(g, other).data;
      forall i | 0 <= i < |g.data| ensures r[i] == t[i] {
        if StubField(s, |g.data|, hs, i) {
          var h :| h in hs && Binds(s, |g.data|, h) && HeaderField(HeaderOffset(s, h), i);
          var off := HeaderOffset(s, h);
          SameHeader(g, order, other, h);
          assert r[i] == r[off..off + HEADER_SIZE][i - off] && t[i] == t[off..off + HEADER_SIZE][i - off];
        } else {
          assert !StubField(s, |g.data|, ks, i);
        }
      }
    }
  }

  // ---------- two orders that differ ----------

  lemma {:induction false} CollectAppend(symbols: map<string, u64>, x: seq<string>, y: seq<string>)
    requires forall k :: k in x + y ==> k in symbols
    ensures (forall k :: k in x || k in y ==> k in symbols) && Collect(symbols, x + y) == Collect(symbols, x) + Collect(symbols, y)
  {
    assert forall k :: k in x || k in y ==> k in x + y;
    if y == [] {
      assert x + y == x;
    } else {
      var n := |y| - 1;
      assert (x + y)[..|x| + n] == x + y[..n];
      CollectAppend(symbols, x, y[..n]);
    }
  }

  lemma {:induction false} CollectOne(symbols: map<string, u64>, h: Header)
    requires IsHeader(symbols, h)
    ensures Collect(symbols, [h.lib + "_prx_header"]) == [h]
  {
    var name := h.lib + "_prx_header";
    StripSuffixExact(name, "_prx_header", h.lib);
    assert [name][..0] == [];
  }

  /** An order with the header of `h` in front of all others, and one with it behind. */
  lemma {:induction false} Favour(g: Image, h: Header) returns (first: seq<string>, last: seq<string>)
    requires IsHeader(g.symbols, h)
    ensures Enumerates(first, g.symbols) && Enumerates(last, g.symbols)
    ensures exists rest :: Group(g, first, h.addr) == [h] + rest && Group(g, last, h.addr) == rest + [h]
  {
    hide NoDup, Collect, AtAddr;
    var name := h.lib + "_prx_header";
    var others := Listing(g.symbols.Keys - {name});
    first, last := [name] + others, others + [name];
    assert NoDup([name]) by { OneNoDup(name); }
    NoDupAppend([name], others);
    NoDupAppend(others, [name]);
    CollectAppend(g.symbols, [name], others);
    CollectAppend(g.symbols, others, [name]);
    CollectOne(g.symbols, h);
    var hs := Collect(g.symbols, others);
    AtAddrAppend([h], hs, h.addr);
    AtAddrAppend(hs, [h], h.addr);
    AtAddrOne(h, h.addr);
    var rest := AtAddr(hs, h.addr);
    assert Group(g, first, h.addr) == [h] + rest && Group(g, last, h.addr) == rest + [h];
  }

  lemma {:induction false} OneNoDup<T(!new)>(x: T)
    ensures NoDup([x])
  {
  }

  /** The header bound last decides the pointers, the first one the count. */
  lemma {:induction false} Favoured(symbols: map<string, u64>, p: Part, h: Header, rest: seq<Header>)
    requires PartValue(symbols, p, h) != 0
    ensures LastNonzero(PartValues(symbols, p, rest + [h])) == PartValue(symbols, p, h)
    ensures FirstNonzero(PartValues(symbols, p, [h] + rest)) == PartValue(symbols, p, h)
  {
    hide PartValue;
    FirstStays(PartValue(symbols, p, h), PartValues(symbols, p, rest));
    assert PartValues(symbols, p, [h] + rest) == [PartValue(symbols, p, h)] + PartValues(symbols, p, rest);
  }

  lemma {:induction false} PointerDiffers(v: u32, w: u32)
    requires v != w
    ensures BE(v, 4) != BE(w, 4)
  {
    FieldRoundTrip32(v);
    FieldRoundTrip32(w);
  }

  /** The fields one order leaves at a bound header. */
  lemma {:induction false} OrderFields(g: Image, order: seq<string>, h: Header)
    requires Enumerates(order, g.symbols) && SharedOrApart(g) && IsBound(g, h) && HasStubs(g)
    ensures var off, r, hs := HeaderOffset(g.sections[LIB_STUB], h), LibStubs(g, order).data, Group(g, order, h.addr);
      && r[off + 16..off + 20] == Pointed(LastNonzero(PartValues(g.symbols, NamePart, hs)), g.data[off + 16..off + 20])
      && r[off + 20..off + 24] == Pointed(LastNonzero(PartValues(g.symbols, FnidPart, hs)), g.data[off + 20..off + 24])
      && r[off + 24..off + 28] == Pointed(LastNonzero(PartValues(g.symbols, FstubPart, hs)), g.data[off + 24..off + 28])
      && (StoredCount(g, h) == 0 ==> U16(r[off + 6..off + 8]) as int == FirstNonzero(PartValues(g.symbols, CountPart, hs)))
  {
    hide BindSeq, LibStubs, Group, PartValues, LastNonzero, FirstNonzero, U16, Pointed;
    var off, r, hs := HeaderOffset(g.sections[LIB_STUB], h), LibStubs(g, order).data, Group(g, order, h.addr);
    GroupLeft(g, order, h);
    GroupFields(g.symbols, hs, off, g.data);
    var t := BindSeq(g.symbols, hs, off, g.data);
    SliceOfSlice(r, off, off + HEADER_SIZE, 6, 8); SliceOfSlice(t, off, off + HEADER_SIZE, 6, 8);
    SliceOfSlice(r, off, off + HEADER_SIZE, 16, 20); SliceOfSlice(t, off, off + HEADER_SIZE, 16, 20);
    SliceOfSlice(r, off, off + HEADER_SIZE, 20, 24); SliceOfSlice(t, off, off + HEADER_SIZE, 20, 24);
    SliceOfSlice(r, off, off + HEADER_SIZE, 24, 28); SliceOfSlice(t, off, off + HEADER_SIZE, 24, 28);
  }

  /** Headers in conflict at one address: two orders leave different bytes. */
  lemma {:induction false} ConflictDiffers(g: Image, a: Header, b: Header)
    returns (order: seq<string>, other: seq<string>)
    requires SharedOrApart(g) && HasStubs(g) && IsBound(g, a) && IsBound(g, b) && a.addr == b.addr
    requires !HeadersAgree(g, a, b)
    ensures Enumerates(order, g.symbols) && Enumerates(other, g.symbols) && LibStubs(g, order) != LibStubs(g, other)
  {
    hide LibStubs, Group, PartValue, PartValues, LastNonzero, FirstNonzero, U16, BE, SharedOrApart, NoDup;
    var firstA, lastA := Favour(g, a);
    var firstB, lastB := Favour(g, b);
    var restA :| Group(g, firstA, a.addr) == [a] + restA && Group(g, lastA, a.addr) == restA + [a];
    var restB :| Group(g, firstB, b.addr) == [b] + restB && Group(g, lastB, b.addr) == restB + [b];
    if p: Part :| p != CountPart && !Agree(PartValue(g.symbols, p, a), PartValue(g.symbols, p, b)) {
      order, other := lastA, lastB;
      PointerRange(g.symbols, p, a); PointerRange(g.symbols, p, b);
      PointerDiffers(PartValue(g.symbols, p, a), PartValue(g.symbols, p, b));
      Favoured(g.symbols, p, a, restA); Favoured(g.symbols, p, b, restB);
      OrderFields(g, lastA, a); OrderFields(g, lastB, a);
    } else {
      order, other := firstA, firstB;
      Favoured(g.symbols, CountPart, a, restA); Favoured(g.symbols, CountPart, b, restB);
      OrderFields(g, firstA, a); OrderFields(g, firstB, a);
    }
  }

  lemma {:induction false} PointerRange(symbols: map<string, u64>, p: Part, h: Header)
    requires p != CountPart
    ensures PartValue(symbols, p, h) < TWO32
  {
  }

  /** With bound headers at one address or a header apart, every two orders give
      the same bytes exactly when no two headers at one address disagree. */
  lemma {:induction false} HashOrderIrrelevantExactly(g: Image)
    requires SharedOrApart(g)
    ensures (forall order, other :: Enumerates(order, g.symbols) && Enumerates(other, g.symbols) ==>
               LibStubs(g, order) == LibStubs(g, other))
            <==> (HasStubs(g) ==> NoConflict(g))
  {
    hide LibStubs, HeadersAgree, NoDup, SharedOrApart;
    if HasStubs(g) ==> NoConflict(g) {
      forall order, other | Enumerates(order, g.symbols) && Enumerates(other, g.symbols)
        ensures LibStubs(g, order) == LibStubs(g, other)
      {
        NoConflictAgrees(g, order, other);
      }
    } else {
      var a, b :| IsBound(g, a) && IsBound(g, b) && a.addr == b.addr && !HeadersAgree(g, a, b);
      var order, other := ConflictDiffers(g, a, b);
    }
  }

  // ---------- headers that overlap ----------

  /** The headers below an address. */
  function Below(hs: seq<Header>, a: u64): (r: seq<Header>)
    ensures forall h :: h in r <==> h in hs && h.addr < a
  {
    if hs == [] then []
    else
      assert hs == hs[..|hs| - 1] + [hs[|hs| - 1]];
      Below(hs[..|hs| - 1], a) + if hs[|hs| - 1].addr < a then [hs[|hs| - 1]] else []
  }

  /** Of a sorted list, the headers at its greatest address come last. */
  lemma {:induction false} TopGroup(hs: seq<Header>, a: u64)
    requires Sorted(hs) && forall h :: h in hs ==> h.addr <= a
    ensures hs == Below(hs, a) + AtAddr(hs, a)
  {
    hide Below, AtAddr, Sorted;
    if hs == [] {
      NoHeaders(a);
    } else {
      var init, last := hs[..|hs| - 1], hs[|hs| - 1];
      var x, y := Below(init, a), AtAddr(init, a);
      assert hs == init + [last];
      PrefixSorted(init, [last]);
      TopGroup(init, a);
      SplitLast(hs, a);
      if last.addr < a {
        LastGreatest(hs);
        NoneAt(init, a);
        assert x + [] == x;
      } else {
        assert x + y + [last] == x + (y + [last]);
      }
    }
  }

  lemma {:induction false} NoHeaders(a: u64)
    ensures Below([], a) == [] && AtAddr([], a) == []
  {
  }

  lemma {:induction false} SplitLast(hs: seq<Header>, a: u64)
    requires hs != []
    ensures var init, last := hs[..|hs| - 1], hs[|hs| - 1];
      && Below(hs, a) == Below(init, a) + (if last.addr < a then [last] else [])
      && AtAddr(hs, a) == AtAddr(init, a) + (if last.addr == a then [last] else [])
  {
  }

  lemma {:induction false} LastGreatest(hs: seq<Header>)
    requires Sorted(hs) && hs != []
    ensures forall k :: k in hs ==> k.addr <= hs[|hs| - 1].addr
  {
    forall k | k in hs ensures k.addr <= hs[|hs| - 1].addr { var i :| 0 <= i < |hs| && hs[i] == k; }
  }

  lemma {:induction false} PrefixSorted(x: seq<Header>, y: seq<Header>)
    requires Sorted(x + y)
    ensures Sorted(x)
  {
    forall i, j | 0 <= i < j < |x| ensures x[i].addr <= x[j].addr { assert (x + y)[i] == x[i] && (x + y)[j] == x[j]; }
  }

  lemma {:induction false} NoneAt(hs: seq<Header>, a: u64)
    requires forall h :: h in hs ==> h.addr != a
    ensures AtAddr(hs, a) == []
  {
    if hs != [] {
      assert hs[|hs| - 1] in hs;
      NoneAt(hs[..|hs| - 1], a);
    }
  }

  /** Headers at one address are bound one after the other, or not at all. */
  lemma {:induction false} BindTop(symbols: map<string, u64>, s: Section, x: seq<Header>, y: seq<Header>, h: Header,
      d: seq<byte>)
    requires forall k :: k in y ==> k.addr == h.addr
    ensures var m := BindAll(symbols, s, x, d);
      BindAll(symbols, s, x + y, d) == if Binds(s, |d|, h) then BindSeq(symbols, y, HeaderOffset(s, h), m) else m
  {
    hide BindHeader;
    if y == [] {
      assert x + y == x;
    } else {
      var n := |y| - 1;
      assert y[n] in y && (x + y)[..|x| + n] == x + y[..n];
      BindTop(symbols, s, x, y[..n], h, d);
    }
  }

  /** Pairwise agreement on all four values, for bound headers at one address. */
  ghost predicate AllAgree(symbols: map<string, u64>, s: Section, len: nat, hs: seq<Header>) {
    forall p, a, b :: a in hs && b in hs && Binds(s, len, a) && a.addr == b.addr ==>
      Agree(PartValue(symbols, p, a), PartValue(symbols, p, b))
  }

  lemma {:induction false} SameGroup(symbols: map<string, u64>, a: seq<Header>, b: seq<Header>, off: nat, d: seq<byte>)
    requires off + HEADER_SIZE <= |d| && (forall h :: h in a <==> h in b)
    requires forall p, h, k :: h in a && k in a ==> Agree(PartValue(symbols, p, h), PartValue(symbols, p, k))
    ensures BindSeq(symbols, a, off, d) == BindSeq(symbols, b, off, d)
  {
    hide BindSeq, PartValue, PartValues, LastNonzero, FirstNonzero, U16, BE;
    SameValue(symbols, NamePart, a, b); SameValue(symbols, FnidPart, a, b);
    SameValue(symbols, FstubPart, a, b); SameValue(symbols, CountPart, a, b);
    SameSlice(symbols, a, b, off, d);
    GroupFields(symbols, a, off, d);
    GroupFields(symbols, b, off, d);
    var r, t := BindSeq(symbols, a, off, d), BindSeq(symbols, b, off, d);
    SliceAt(r, t, off, off + HEADER_SIZE);
  }

  lemma {:induction false} BothEmpty(hs: seq<Header>, ks: seq<Header>)
    requires forall h :: h in hs <==> h in ks
    ensures hs == [] <==> ks == []
  {
    if hs != [] { assert hs[0] in ks; }
    if ks != [] { assert ks[0] in hs; }
  }

  /** Sorted lists of the same agreeing headers write the same bytes, however the
      headers overlap. */
  lemma {:induction false} SameBinding(symbols: map<string, u64>, s: Section, hs: seq<Header>, ks: seq<Header>,
      d: seq<byte>)
    requires Sorted(hs) && Sorted(ks) && (forall h :: h in hs <==> h in ks) && AllAgree(symbols, s, |d|, hs)
    ensures BindAll(symbols, s, hs, d) == BindAll(symbols, s, ks, d)
    decreases |hs|
  {
    hide BindSeq, PartValue, Below, AtAddr, BindAll, Agree;
    BothEmpty(hs, ks);
    if hs != [] {
      var h := hs[|hs| - 1];
      assert h in hs && h in ks;
      LastGreatest(hs);
      var x, y, v, w := Below(hs, h.addr), AtAddr(hs, h.addr), Below(ks, h.addr), AtAddr(ks, h.addr);
      TopGroup(hs, h.addr);
      TopGroup(ks, h.addr);
      PrefixSorted(x, y);
      PrefixSorted(v, w);
      forall k ensures (k in y <==> k in hs && k.addr == h.addr) && (k in w <==> k in ks && k.addr == h.addr) {
        AtAddrIn(hs, h.addr, k);
        AtAddrIn(ks, h.addr, k);
      }
      assert h in y && hs == x + y && |y| > 0;
      SameBinding(symbols, s, x, v, d);
      BindTop(symbols, s, x, y, h, d);
      BindTop(symbols, s, v, w, h, d);
      if Binds(s, |d|, h) { SameGroup(symbols, y, w, HeaderOffset(s, h), BindAll(symbols, s, x, d)); }
    }
  }

  /** Wherever the headers lie: the order of the hash map does not matter when
      headers at one address agree on every value. */
  lemma {:induction false} AgreementSuffices(g: Image, order: seq<string>, other: seq<string>)
    requires Enumerates(order, g.symbols) && Enumerates(other, g.symbols)
    requires forall p, a, b :: IsBound(g, a) && IsBound(g, b) && a.addr == b.addr ==>
      Agree(PartValue(g.symbols, p, a), PartValue(g.symbols, p, b))
    ensures LibStubs(g, order) == LibStubs(g, other)
  {
    hide BindAll, SortByAddr, Collect, PartValue, NoDup;
    StubHeadersAre(g, order);
    StubHeadersAre(g, other);
    SortSorts(Collect(g.symbols, order));
    SortSorts(Collect(g.symbols, other));
    if HasStubs(g) {
      SameBinding(g.symbols, g.sections[LIB_STUB], StubHeaders(g, order), StubHeaders(g, other), g.data);
    }
  }

  // ---------- the whole patch ----------

  /** The regions of the passes are the same for every order. */
  lemma {:induction false} RegionsAgree(g: Image, order: seq<string>, other: seq<string>)
    requires CanRunAll(g) && Enumerates(order, g.symbols) && Enumerates(other, g.symbols)
    ensures forall p, i: nat {:trigger Region(p, g, order, i)} {:trigger Region(p, g, other, i)} ::
      Region(p, g, order, i) <==> Region(p, g, other, i)
  {
    hide StubHeaders, OpdByte, HasPrxParams, HeaderField, Binds, NewSlots;
    StubHeadersAre(g, order);
    StubHeadersAre(g, other);
  }

  lemma {:induction false} InPipeline(p: Pass)
    ensures p in PIPELINE
  {
    assert PIPELINE[0] == FixOsAbi && PIPELINE[1] == FixPhdrs && PIPELINE[2] == FixStubs && PIPELINE[3] == FixOpd;
    assert PIPELINE[4] == FixPrxParams;
  }

  /** Each byte of two whole patches and of the two bindings alone. */
  lemma {:induction false} BytesAlike(g: Image, order: seq<string>, other: seq<string>, i: nat)
    requires CanRunAll(g) && Enumerates(order, g.symbols) && Enumerates(other, g.symbols)
    requires Disjoint(g, order) && Disjoint(g, other) && NoWrap(g) && i < |g.data|
    requires Patchable(g) && |PatchAll(g, order).data| == |PatchAll(g, other).data| == |g.data|
    requires PatchedBy(PIPELINE, g, order, PatchAll(g, order)) && PatchedBy(PIPELINE, g, other, PatchAll(g, other))
    ensures LibStubs(g, order) == LibStubs(g, other) ==> PatchAll(g, order).data[i] == PatchAll(g, other).data[i]
    ensures PatchAll(g, order) == PatchAll(g, other) ==> LibStubs(g, order).data[i] == LibStubs(g, other).data[i]
  {
    hide Region, PatchAll, Patchable, LibStubs, NoWrap, NewPhnum, NewSlots, TableFits, PrxParamsFit, NoDup,
      Disjoint;
    RegionsAgree(g, order, other);
    RunFrame(FixStubs, g, order);
    RunFrame(FixStubs, g, other);
    var r, t := PatchAll(g, order).data, PatchAll(g, other).data;
    if Region(FixStubs, g, order, i) {
      InPipeline(FixStubs);
      assert r[i] == LibStubs(g, order).data[i] && t[i] == LibStubs(g, other).data[i];
    } else if p :| Region(p, g, order, i) {
      InPipeline(p);
      assert r[i] == Run(p, g, order).data[i] && t[i] == Run(p, g, other).data[i];
      assert Run(p, g, order) == Run(p, g, other);
    } else {
      assert r[i] == g.data[i] && t[i] == g.data[i];
    }
  }

  /** Two orders patch the file alike exactly when they bind alike. */
  lemma {:induction false} PatchesAlike(g: Image, order: seq<string>, other: seq<string>)
    requires CanRunAll(g) && Enumerates(order, g.symbols) && Enumerates(other, g.symbols)
    requires Disjoint(g, order) && Disjoint(g, other) && NoWrap(g)
    ensures Patchable(g) && (PatchAll(g, order) == PatchAll(g, other) <==> LibStubs(g, order) == LibStubs(g, other))
  {
    hide Region, PatchAll, Patchable, LibStubs, NoWrap, NewPhnum, NewSlots, TableFits, PrxParamsFit, NoDup, Disjoint;
    PipelineIsOnePatch(g, order);
    PipelineIsOnePatch(g, other);
    var r, t := PatchAll(g, order).data, PatchAll(g, other).data;
    var b, e := LibStubs(g, order).data, LibStubs(g, other).data;
    forall i | 0 <= i < |g.data|
      ensures (LibStubs(g, order) == LibStubs(g, other) ==> r[i] == t[i])
      ensures (PatchAll(g, order) == PatchAll(g, other) ==> b[i] == e[i])
    {
      BytesAlike(g, order, other, i);
    }
  }

  /** The whole patch of an image whose regions lie apart ignores the order of
      the hash map exactly when no two headers at one address disagree. */
  lemma {:induction false} PatchIgnoresHashOrderExactly(g: Image)
    requires SharedOrApart(g) && CanRunAll(g) && NoWrap(g)
    requires forall order :: Enumerates(order, g.symbols) ==> Disjoint(g, order)
    ensures Patchable(g)
    ensures (forall order, other :: Enumerates(order, g.symbols) && Enumerates(other, g.symbols) ==>
               PatchAll(g, order) == PatchAll(g, other))
            <==> (HasStubs(g) ==> NoConflict(g))
  {
    hide LibStubs, NoConflict, NoDup, SharedOrApart, PatchAll, NoWrap, NewSlots, Patchable, Disjoint, HasStubs;
    HashOrderIrrelevantExactly(g);
    var some := Listing(g.symbols.Keys);
    assert Enumerates(some, g.symbols);
    PatchesAlike(g, some, some);
    forall order, other | Enumerates(order, g.symbols) && Enumerates(other, g.symbols)
      ensures PatchAll(g, order) == PatchAll(g, other) <==> LibStubs(g, order) == LibStubs(g, other)
    {
      PatchesAlike(g, order, other);
    }
  }
}
