/** Import binding: the sort, the headers it binds, and that the order in which
    the hash map of symbols is iterated does not matter when those headers have
    addresses of their own. */
module Binding {
  import opened Bytes
  import opened Wrappers
  import opened Lists
  import opened Elf
  import opened Passes
  import opened Locality

  lemma {:induction false} StripSuffixExact(name: string, suffix: string, p: string)
    ensures StripSuffix(name, suffix) == Some(p) <==> name == p + suffix
  {
    if name == p + suffix {
      assert name[..|p|] == p && name[|p|..] == suffix;
    }
  }

  // ---------- the sort ----------

  ghost predicate Sorted(hs: seq<Header>) {
    forall i, j :: 0 <= i < j < |hs| ==> hs[i].addr <= hs[j].addr
  }

  ghost predicate StrictlySorted(hs: seq<Header>) {
    forall i, j :: 0 <= i < j < |hs| ==> hs[i].addr < hs[j].addr
  }

  lemma {:induction false} InsertKeeps(hs: seq<Header>, h: Header)
    ensures multiset(InsertByAddr(hs, h)) == multiset(hs) + multiset{h}
  {
    if hs == [] || hs[|hs| - 1].addr <= h.addr {
    } else {
      var init, last := hs[..|hs| - 1], hs[|hs| - 1];
      InsertKeeps(init, h);
      assert hs == init + [last];
    }
  }

  lemma {:induction false} AppendSorted(r: seq<Header>, last: Header)
    requires Sorted(r) && forall k :: 0 <= k < |r| ==> r[k].addr <= last.addr
    ensures Sorted(r + [last])
  {
  }

  lemma {:induction false} InsertSorts(hs: seq<Header>, h: Header)
    requires Sorted(hs)
    ensures Sorted(InsertByAddr(hs, h)) && multiset(InsertByAddr(hs, h)) == multiset(hs) + multiset{h}
  {
    InsertKeeps(hs, h);
    if hs == [] || hs[|hs| - 1].addr <= h.addr {
      AppendSorted(hs, h);
    } else {
      var init, last := hs[..|hs| - 1], hs[|hs| - 1];
      InsertSorts(init, h);
      var r := InsertByAddr(init, h);
      forall k | 0 <= k < |r| ensures r[k].addr <= last.addr {
        assert r[k] in multiset(r);
        assert r[k] == h || r[k] in init;
      }
      AppendSorted(r, last);
    }
  }

  /** The result is the input rearranged in ascending address order. */
  lemma {:induction false} SortSorts(hs: seq<Header>)
    ensures Sorted(SortByAddr(hs)) && multiset(SortByAddr(hs)) == multiset(hs)
  {
    hide InsertByAddr;
    if hs != [] {
      var init, last := hs[..|hs| - 1], hs[|hs| - 1];
      SortSorts(init);
      InsertSorts(SortByAddr(init), last);
      assert hs == init + [last];
    }
  }

  /** Strictly ascending sequences with the same elements are equal. */
  lemma {:induction false} StrictOrderUnique(a: seq<Header>, b: seq<Header>)
    requires StrictlySorted(a) && StrictlySorted(b)
    requires forall h :: h in a <==> h in b
    ensures a == b
  {
    if b != [] { assert b[0] in b; }
    if a == [] {
      assert b == [];
    } else {
      assert a[0] in b;
      var n, m := |a| - 1, |b| - 1;
      assert a[n] in b && b[m] in a;
      assert a[n] == b[m];
      forall h ensures h in a[..n] <==> h in b[..m] {
        assert h in a <==> h in a[..n] || h == a[n];
        assert h in b <==> h in b[..m] || h == b[m];
      }
      StrictOrderUnique(a[..n], b[..m]);
      assert a == a[..n] + [a[n]] && b == b[..m] + [b[m]];
    }
  }

  // ---------- the headers that matter ----------

  /** `h` is a `_prx_header` symbol of the map. */
  predicate IsHeader(symbols: map<string, u64>, h: Header) {
    h.lib + "_prx_header" in symbols && symbols[h.lib + "_prx_header"] == h.addr
  }

  lemma {:induction false} CollectFinds(symbols: map<string, u64>, order: seq<string>)
    requires forall k :: k in order ==> k in symbols
    requires forall i, j :: 0 <= i < j < |order| ==> order[i] != order[j]
    ensures var hs := Collect(symbols, order);
      && NoDup(hs)
      && (forall h :: h in hs <==> h.lib + "_prx_header" in order && IsHeader(symbols, h))
  {
    if order != [] {
      var init, name := order[..|order| - 1], order[|order| - 1];
      CollectFinds(symbols, init);
      var lib := StripSuffix(name, "_prx_header");
      forall h: Header
        ensures h in Collect(symbols, order) <==> h.lib + "_prx_header" in order && IsHeader(symbols, h)
      {
        StripSuffixExact(name, "_prx_header", h.lib);
        assert order == init + [name];
      }
      if lib.Some? { StripSuffixExact(name, "_prx_header", lib.value); }
    }
  }

  /** The headers of `hs` that get bound, in order. */
  function Bound(s: Section, len: nat, hs: seq<Header>): (r: seq<Header>)
    ensures forall h :: h in r <==> h in hs && Binds(s, len, h)
  {
    if hs == [] then []
    else
      assert hs == hs[..|hs| - 1] + [hs[|hs| - 1]];
      Bound(s, len, hs[..|hs| - 1]) + if Binds(s, len, hs[|hs| - 1]) then [hs[|hs| - 1]] else []
  }

  lemma {:induction false} BindAllBound(symbols: map<string, u64>, s: Section, hs: seq<Header>, d: seq<byte>)
    ensures BindAll(symbols, s, hs, d) == BindAll(symbols, s, Bound(s, |d|, hs), d)
  {
    hide BindHeader, Binds;
    if hs != [] {
      var init := hs[..|hs| - 1];
      BindAllBound(symbols, s, init, d);
      var b := Bound(s, |d|, init);
      assert b + [] == b;
      assert (b + [hs[|hs| - 1]])[..|b|] == b;
    }
  }

  lemma {:induction false} BoundStrict(s: Section, len: nat, hs: seq<Header>)
    requires Sorted(hs) && NoDup(hs)
    requires forall a, b :: a in hs && b in hs && Binds(s, len, a) && Binds(s, len, b) && a.addr == b.addr ==> a == b
    ensures StrictlySorted(Bound(s, len, hs))
  {
    hide Binds;
    if hs != [] {
      var init, last := hs[..|hs| - 1], hs[|hs| - 1];
      BoundStrict(s, len, init);
      forall k | 0 <= k < |Bound(s, len, init)| && Binds(s, len, last)
        ensures Bound(s, len, init)[k].addr < last.addr
      {
        var h := Bound(s, len, init)[k];
        assert h in init && h in hs && last in hs;
        assert h != last;
      }
    }
  }

  lemma {:induction false} SortKeepsNoDup(hs: seq<Header>)
    requires NoDup(hs)
    ensures NoDup(SortByAddr(hs)) && forall h :: h in SortByAddr(hs) <==> h in hs
  {
    hide SortByAddr;
    SortSorts(hs);
    var r := SortByAddr(hs);
    forall h ensures h in r <==> h in hs { assert h in r <==> h in multiset(r); assert h in hs <==> h in multiset(hs); }
    forall i, j | 0 <= i < j < |r| ensures r[i] != r[j] {
      if r[i] == r[j] {
        CountTwo(r, i, j);
        CountAtMostOne(hs, r[i]);
      }
    }
  }

  /** The header symbols that get bound have pairwise distinct addresses. */
  ghost predicate DistinctHeaders(g: Image) {
    LIB_STUB in g.sections ==>
      forall a, b :: (IsHeader(g.symbols, a) && IsHeader(g.symbols, b) && a.addr == b.addr
                      && Binds(g.sections[LIB_STUB], |g.data|, a)) ==> a == b
  }

  lemma {:induction false} StubHeadersAre(g: Image, order: seq<string>)
    requires Enumerates(order, g.symbols)
    ensures NoDup(StubHeaders(g, order))
    ensures forall h :: h in StubHeaders(g, order) <==> IsHeader(g.symbols, h)
  {
    hide SortByAddr, Collect;
    CollectFinds(g.symbols, order);
    SortKeepsNoDup(Collect(g.symbols, order));
  }

  lemma {:induction false} BoundHeaders(g: Image, order: seq<string>)
    requires Enumerates(order, g.symbols) && LIB_STUB in g.sections && DistinctHeaders(g)
    ensures var bound := Bound(g.sections[LIB_STUB], |g.data|, StubHeaders(g, order));
      && StrictlySorted(bound)
      && forall h :: h in bound <==> IsHeader(g.symbols, h) && Binds(g.sections[LIB_STUB], |g.data|, h)
  {
    hide SortByAddr, Collect, Binds;
    StubHeadersAre(g, order);
    SortSorts(Collect(g.symbols, order));
    BoundStrict(g.sections[LIB_STUB], |g.data|, StubHeaders(g, order));
  }

  /** Any two iteration orders of the same symbol map give the same bytes. */
  lemma {:induction false} BindingIgnoresHashOrder(g: Image, order: seq<string>, other: seq<string>)
    requires Enumerates(order, g.symbols) && Enumerates(other, g.symbols) && DistinctHeaders(g)
    ensures LibStubs(g, order) == LibStubs(g, other)
  {
    hide BindAll, StubHeaders, Bound;
    if HasStubs(g) {
      var s := g.sections[LIB_STUB];
      BoundHeaders(g, order);
      BoundHeaders(g, other);
      StrictOrderUnique(Bound(s, |g.data|, StubHeaders(g, order)), Bound(s, |g.data|, StubHeaders(g, other)));
      BindAllBound(g.symbols, s, StubHeaders(g, order), g.data);
      BindAllBound(g.symbols, s, StubHeaders(g, other), g.data);
    }
  }

  // ---------- headers that do not overlap ----------

  /** Distinct bound headers are at least a header apart. */
  ghost predicate Spaced(s: Section, len: nat, hs: seq<Header>) {
    forall a, b :: (a in hs && b in hs && Binds(s, len, a) && Binds(s, len, b) && a != b) ==>
      a.addr + HEADER_SIZE <= b.addr || b.addr + HEADER_SIZE <= a.addr
  }

  /** Each of the bound headers ends up as if it alone had been bound. */
  lemma {:induction false} BindAllAt(symbols: map<string, u64>, s: Section, hs: seq<Header>, d: seq<byte>, h: Header,
      i: nat)
    requires Spaced(s, |d|, hs) && NoDup(hs) && h in hs && Binds(s, |d|, h)
    requires HeaderOffset(s, h) <= i < HeaderOffset(s, h) + HEADER_SIZE
    ensures BindAll(symbols, s, hs, d)[i] == BindHeader(symbols, h.lib, HeaderOffset(s, h), d)[i]
  {
    hide BindHeader;
    var rest, last, off := hs[..|hs| - 1], hs[|hs| - 1], HeaderOffset(s, h);
    assert hs == rest + [last];
    var mid := BindAll(symbols, s, rest, d);
    if last == h {
      forall k | off <= k < off + HEADER_SIZE ensures mid[k] == d[k] {
        BindAllFrame(symbols, s, rest, d);
        assert !StubField(s, |d|, rest, k);
      }
      assert mid[off + 6..off + 8] == d[off + 6..off + 8];
      BindHeaderAgrees(symbols, h.lib, off, mid, d);
    } else {
      BindAllAt(symbols, s, rest, d, h, i);
      if Binds(s, |d|, last) { BindHeaderFrame(symbols, last.lib, HeaderOffset(s, last), mid); }
    }
  }

  lemma {:induction false} PutNonzeroRead(d: seq<byte>, off: nat, v: nat, n: nat)
    requires off + n <= |d|
    ensures PutNonzero(d, off, v, n)[off..off + n] == if v != 0 then BE(v, n) else d[off..off + n]
  {
    hide BE;
  }

  lemma {:induction false} PutNonzeroSlice(d: seq<byte>, off: nat, v: nat, n: nat, lo: nat, hi: nat)
    requires off + n <= |d| && lo <= hi <= |d| && (hi <= off || off + n <= lo)
    ensures PutNonzero(d, off, v, n)[lo..hi] == d[lo..hi]
  {
    hide BE;
    if v != 0 { PutFrame(d, off, BE(v, n), lo, hi); }
  }

  /** The four fields of a bound header. */
  lemma {:induction false} BindHeaderFields(symbols: map<string, u64>, lib: string, off: nat, d: seq<byte>)
    requires off + HEADER_SIZE <= |d|
    ensures var r := BindHeader(symbols, lib, off, d);
      var p, q, t := Pointer(symbols, lib + "_name"), Pointer(symbols, lib + "_fnid_table"),
          Pointer(symbols, lib + "_fstub_table");
      var c := ImportCount(symbols, lib, U16(d[off + 6..off + 8]));
      && r[off + 16..off + 20] == (if p != 0 then BE(p, 4) else d[off + 16..off + 20])
      && r[off + 20..off + 24] == (if q != 0 then BE(q, 4) else d[off + 20..off + 24])
      && r[off + 24..off + 28] == (if t != 0 then BE(t, 4) else d[off + 24..off + 28])
      && U16(r[off + 6..off + 8]) == c
  {
    hide PutNonzero, U16, BE, ImportCount, Pointer;
    var p, q, t := Pointer(symbols, lib + "_name"), Pointer(symbols, lib + "_fnid_table"),
        Pointer(symbols, lib + "_fstub_table");
    var c := ImportCount(symbols, lib, U16(d[off + 6..off + 8]));
    var d1 := PutNonzero(d, off + 16, p, 4);
    var d2 := PutNonzero(d1, off + 20, q, 4);
    var d3 := PutNonzero(d2, off + 24, t, 4);
    var r := PutNonzero(d3, off + 6, c, 2);
    PutNonzeroRead(d, off + 16, p, 4); PutNonzeroRead(d1, off + 20, q, 4);
    PutNonzeroRead(d2, off + 24, t, 4); PutNonzeroRead(d3, off + 6, c, 2);
    PutNonzeroSlice(d, off + 16, p, 4, off + 20, off + 24); PutNonzeroSlice(d, off + 16, p, 4, off + 24, off + 28);
    PutNonzeroSlice(d, off + 16, p, 4, off + 6, off + 8);
    PutNonzeroSlice(d1, off + 20, q, 4, off + 24, off + 28); PutNonzeroSlice(d1, off + 20, q, 4, off + 6, off + 8);
    PutNonzeroSlice(d1, off + 20, q, 4, off + 16, off + 20);
    PutNonzeroSlice(d2, off + 24, t, 4, off + 6, off + 8); PutNonzeroSlice(d2, off + 24, t, 4, off + 16, off + 20);
    PutNonzeroSlice(d2, off + 24, t, 4, off + 20, off + 24);
    PutNonzeroSlice(d3, off + 6, c, 2, off + 16, off + 20); PutNonzeroSlice(d3, off + 6, c, 2, off + 20, off + 24);
    PutNonzeroSlice(d3, off + 6, c, 2, off + 24, off + 28);
    FieldRoundTrip16(c);
    assert c == 0 ==> U16(d[off + 6..off + 8]) == 0 by { CountZero(symbols, lib, U16(d[off + 6..off + 8])); }
  }

  /** The count the pass leaves is a fixed point, and zero only if it was. */
  lemma {:induction false} CountZero(symbols: map<string, u64>, lib: string, stored: u16)
    ensures ImportCount(symbols, lib, stored) == 0 ==> stored == 0
    ensures ImportCount(symbols, lib, ImportCount(symbols, lib, stored)) == ImportCount(symbols, lib, stored)
  {
  }

  /** Binding a header twice is binding it once. */
  lemma {:induction false} BindHeaderIdempotent(symbols: map<string, u64>, lib: string, off: nat, d: seq<byte>)
    requires off + HEADER_SIZE <= |d|
    ensures var r := BindHeader(symbols, lib, off, d); BindHeader(symbols, lib, off, r) == r
  {
    hide BindHeader, U16, BE, ImportCount, Pointer;
    var r := BindHeader(symbols, lib, off, d);
    var t := BindHeader(symbols, lib, off, r);
    BindHeaderFields(symbols, lib, off, d);
    BindHeaderFields(symbols, lib, off, r);
    BindHeaderFrame(symbols, lib, off, r);
    CountZero(symbols, lib, U16(d[off + 6..off + 8]));
    SameU16(r[off + 6..off + 8], t[off + 6..off + 8]);
    assert t[off + 16..off + 20] == r[off + 16..off + 20] && t[off + 20..off + 24] == r[off + 20..off + 24];
    assert t[off + 24..off + 28] == r[off + 24..off + 28] && t[off + 6..off + 8] == r[off + 6..off + 8];
    forall i | 0 <= i < |r| ensures t[i] == r[i] {
      if off + 6 <= i < off + 8 { assert t[i] == t[off + 6..off + 8][i - off - 6]; }
      else if off + 16 <= i < off + 20 { assert t[i] == t[off + 16..off + 20][i - off - 16]; }
      else if off + 20 <= i < off + 24 { assert t[i] == t[off + 20..off + 24][i - off - 20]; }
      else if off + 24 <= i < off + 28 { assert t[i] == t[off + 24..off + 28][i - off - 24]; }
    }
  }

  lemma {:induction false} SameU16(a: seq<byte>, b: seq<byte>)
    requires |a| == |b| == 2 && U16(a) == U16(b)
    ensures a == b
  {
    BEVal(a);
    BEVal(b);
  }
}
