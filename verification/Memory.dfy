/** The C runtime memory functions of `ps3/src/mem.rs` over one shared memory
    (ISO C11 section 7.24). Pointers are indices into it. */
module Memory {
  import opened Bytes

  // ---------- memcpy and memmove ----------

  /** The destination gets the source as it was before the call. */
  function Snapshot(m: seq<byte>, d: nat, s: nat, n: nat): (r: seq<byte>)
    requires d + n <= |m| && s + n <= |m|
    ensures |r| == |m|
  {
    Put(m, d, m[s..s + n])
  }

  /** What copying byte by byte in ascending order makes of the memory. */
  function Ascending(m: seq<byte>, d: nat, s: nat, n: nat): (r: seq<byte>)
    requires d + n <= |m| && s + n <= |m|
    ensures |r| == |m|
  {
    if n == 0 then m
    else
      var r := Ascending(m, d, s, n - 1);
      r[d + n - 1 := r[s + n - 1]]
  }

  method Memcpy(mem: array<byte>, dest: nat, src: nat, n: nat) returns (r: nat)
    requires dest + n <= mem.Length && src + n <= mem.Length
    modifies mem
    ensures mem[..] == Ascending(old(mem[..]), dest, src, n) && r == dest
  {
    ghost var m := mem[..];
    var i := 0;
    while i < n
      invariant i <= n && mem[..] == Ascending(m, dest, src, i)
    {
      mem[dest + i] := mem[src + i];
      i := i + 1;
    }
    r := dest;
  }

  /** One step up: the byte read has not been overwritten yet. */
  lemma {:induction false} StepUp(m: seq<byte>, d: nat, s: nat, i: nat)
    requires d + i < |m| && s + i < |m| && d < s
    ensures var r := Put(m, d, m[s..s + i]); r[d + i := r[s + i]] == Put(m, d, m[s..s + i + 1])
  {
  }

  /** One step down: likewise from the other end. */
  lemma {:induction false} StepDown(m: seq<byte>, d: nat, s: nat, i: nat, n: nat)
    requires i < n && d + n <= |m| && s + n <= |m| && s <= d
    ensures var r := Put(m, d + i + 1, m[s + i + 1..s + n]); r[d + i := r[s + i]] == Put(m, d + i, m[s + i..s + n])
  {
  }

  method Memmove(mem: array<byte>, dest: nat, src: nat, n: nat) returns (r: nat)
    requires dest + n <= mem.Length && src + n <= mem.Length
    modifies mem
    ensures mem[..] == Snapshot(old(mem[..]), dest, src, n) && r == dest
    ensures mem[dest..dest + n] == old(mem[src..src + n])
    ensures forall k :: 0 <= k < mem.Length && !(dest <= k < dest + n) ==> mem[k] == old(mem[k])
  {
    hide Put;
    ghost var m := mem[..];
    if dest < src {
      var i := 0;
      PutNone(m, dest);
      assert m[src..src + 0] == [];
      while i < n
        invariant i <= n && mem[..] == Put(m, dest, m[src..src + i])
      {
        StepUp(m, dest, src, i);
        mem[dest + i] := mem[src + i];
        i := i + 1;
      }
    } else {
      var i := n;
      PutNone(m, dest + n);
      assert m[src + n..src + n] == [];
      while i > 0
        invariant 0 <= i <= n && mem[..] == Put(m, dest + i, m[src + i..src + n])
      {
        i := i - 1;
        StepDown(m, dest, src, i, n);
        mem[dest + i] := mem[src + i];
      }
    }
    SnapshotBytes(m, dest, src, n);
    assert mem[dest..dest + n] == mem[..][dest..dest + n];
    r := dest;
  }

  lemma {:induction false} SnapshotBytes(m: seq<byte>, d: nat, s: nat, n: nat)
    requires d + n <= |m| && s + n <= |m|
    ensures var r := Snapshot(m, d, s, n);
      r[d..d + n] == m[s..s + n] && forall k :: 0 <= k < |m| && !(d <= k < d + n) ==> r[k] == m[k]
  {
  }

  /** Position `k` of a pattern of `p` bytes repeated. */
  function Repeat(k: nat, p: nat): (r: nat)
    requires p > 0
    ensures r < p && (k < p ==> r == k)
  {
    if k < p then k else Repeat(k - p, p)
  }

  /** ... which is the remainder of a division by `p`. */
  lemma {:induction false} RepeatIsRest(k: nat, p: nat) returns (q: nat)
    requires p > 0
    ensures k == p * q + Repeat(k, p)
  {
    if k < p {
      q := 0;
    } else {
      var before := RepeatIsRest(k - p, p);
      q := before + 1;
    }
  }

  /** An ascending copy leaves a memory in which the destination repeats the
      first `d - s` source bytes when it starts inside the source, and is the
      snapshot otherwise; nothing outside the destination changes. */
  lemma {:induction false} AscendingTiles(m: seq<byte>, d: nat, s: nat, n: nat, i: nat)
    requires d + n <= |m| && s + n <= |m| && i < |m|
    ensures Ascending(m, d, s, n)[i] ==
      if !(d <= i < d + n) then m[i]
      else if s < d then m[s + Repeat(i - d, d - s)]
      else m[s + (i - d)]
  {
    if n > 0 {
      AscendingTiles(m, d, s, n - 1, i);
      if i == d + n - 1 { AscendingTiles(m, d, s, n - 1, s + n - 1); }
    }
  }

  /** memcpy does what memmove does, whatever the memory holds, exactly when the
      destination does not start inside the source after its first byte. */
  lemma {:induction false} MemcpyIsMemmoveExactly(size: nat, d: nat, s: nat, n: nat)
    requires d + n <= size && s + n <= size
    ensures (forall m: seq<byte> :: |m| == size ==> Ascending(m, d, s, n) == Snapshot(m, d, s, n))
        <==> (d <= s || s + n <= d)
  {
    hide Ascending, Snapshot, Put;
    if d <= s || s + n <= d {
      forall m: seq<byte> | |m| == size ensures Ascending(m, d, s, n) == Snapshot(m, d, s, n) {
        Agree(m, d, s, n);
      }
    } else {
      var m: seq<byte> := seq(size, _ => 0);
      var w := m[d := 1];
      Differ(w, d, s, n);
      assert |w| == size;
    }
  }

  lemma {:induction false} Agree(m: seq<byte>, d: nat, s: nat, n: nat)
    requires d + n <= |m| && s + n <= |m| && (d <= s || s + n <= d)
    ensures Ascending(m, d, s, n) == Snapshot(m, d, s, n)
  {
    hide Ascending;
    forall i | 0 <= i < |m| ensures Ascending(m, d, s, n)[i] == Snapshot(m, d, s, n)[i] {
      AscendingTiles(m, d, s, n, i);
    }
  }

  lemma {:induction false} Differ(m: seq<byte>, d: nat, s: nat, n: nat)
    requires d + n <= |m| && s < d < s + n <= |m|
    requires forall i :: 0 <= i < |m| ==> m[i] == if i == d then 1 else 0
    ensures Ascending(m, d, s, n) != Snapshot(m, d, s, n)
  {
    hide Ascending;
    var i := d + (d - s);
    AscendingTiles(m, d, s, n, i);
    assert Repeat(d - s, d - s) == 0;
    assert Snapshot(m, d, s, n)[i] == m[s + (i - d)] == 1;
  }

  // ---------- memset and strlen ----------

  method Memset(mem: array<byte>, dest: nat, c: int, n: nat) returns (r: nat)
    requires dest + n <= mem.Length && -0x8000_0000 <= c < 0x8000_0000
    modifies mem
    ensures r == dest
    ensures forall k :: 0 <= k < mem.Length ==> mem[k] == if dest <= k < dest + n then c % 0x100 else old(mem[k])
  {
    ghost var m := mem[..];
    var i := 0;
    while i < n
      invariant i <= n
      invariant forall k :: 0 <= k < mem.Length ==> mem[k] == if dest <= k < dest + i then c % 0x100 else m[k]
    {
      mem[dest + i] := c % 0x100;
      i := i + 1;
    }
    r := dest;
  }

  method Strlen(mem: array<byte>, s: nat) returns (len: nat)
    requires exists e :: s <= e < mem.Length && mem[e] == 0
    ensures s + len < mem.Length && mem[s + len] == 0 && 0 !in mem[s..s + len]
  {
    len := 0;
    while mem[s + len] != 0
      invariant s + len < mem.Length && 0 !in mem[s..s + len]
      invariant exists e :: s + len <= e < mem.Length && mem[e] == 0
      decreases mem.Length - len
    {
      assert mem[s..s + len + 1] == mem[s..s + len] + [mem[s + len]];
      len := len + 1;
    }
  }

  // ---------- memcmp ----------

  /** The difference at the first position where the prefixes differ. */
  function Compare(a: seq<byte>, b: seq<byte>): int
    requires |a| == |b|
  {
    if a == [] then 0
    else if a[0] != b[0] then a[0] - b[0]
    else Compare(a[1..], b[1..])
  }

  method Memcmp(mem: array<byte>, s1: nat, s2: nat, n: nat) returns (r: int)
    requires s1 + n <= mem.Length && s2 + n <= mem.Length
    ensures r == Compare(mem[s1..s1 + n], mem[s2..s2 + n])
  {
    var i := 0;
    while i < n
      invariant i <= n
      invariant Compare(mem[s1..s1 + n], mem[s2..s2 + n]) == Compare(mem[s1 + i..s1 + n], mem[s2 + i..s2 + n])
    {
      var va: int, vb: int := mem[s1 + i], mem[s2 + i];
      if va != vb { return va - vb; }
      assert mem[s1 + i..s1 + n][1..] == mem[s1 + i + 1..s1 + n];
      assert mem[s2 + i..s2 + n][1..] == mem[s2 + i + 1..s2 + n];
      i := i + 1;
    }
    r := 0;
  }

  /** The value itself: what the two bytes at the first difference differ by. */
  lemma {:induction false} CompareFirst(a: seq<byte>, b: seq<byte>, k: nat)
    requires |a| == |b| && k < |a| && a[..k] == b[..k] && a[k] != b[k]
    ensures Compare(a, b) == a[k] as int - b[k] as int
  {
    if k > 0 {
      assert a[0] == a[..k][0] && b[0] == b[..k][0];
      assert a[1..][..k - 1] == a[..k][1..] && b[1..][..k - 1] == b[..k][1..];
      CompareFirst(a[1..], b[1..], k - 1);
    }
  }

  /** Unsigned lexicographic order. */
  ghost predicate LexLess(a: seq<byte>, b: seq<byte>)
    requires |a| == |b|
  {
    exists k :: 0 <= k < |a| && a[..k] == b[..k] && a[k] < b[k]
  }

  /** The sign of the result is unsigned lexicographic order; it is zero exactly
      on equal contents. */
  lemma {:induction false} CompareIsLexicographic(a: seq<byte>, b: seq<byte>)
    requires |a| == |b|
    ensures (Compare(a, b) == 0 <==> a == b) && (Compare(a, b) < 0 <==> LexLess(a, b)) && -255 <= Compare(a, b) <= 255
  {
    if a != [] {
      if a[0] != b[0] {
        if a[0] < b[0] { assert a[..0] == b[..0]; }
        if LexLess(a, b) {
          var k :| 0 <= k < |a| && a[..k] == b[..k] && a[k] < b[k];
          if k > 0 { assert a[..k][0] == b[..k][0]; }
        }
      } else {
        CompareIsLexicographic(a[1..], b[1..]);
        TailLess(a, b);
        assert a == [a[0]] + a[1..] && b == [b[0]] + b[1..];
      }
    }
  }

  lemma {:induction false} TailLess(a: seq<byte>, b: seq<byte>)
    requires |a| == |b| > 0 && a[0] == b[0]
    ensures LexLess(a, b) <==> LexLess(a[1..], b[1..])
  {
    if LexLess(a, b) {
      var k :| 0 <= k < |a| && a[..k] == b[..k] && a[k] < b[k];
      assert a[1..][..k - 1] == a[..k][1..] && b[1..][..k - 1] == b[..k][1..];
      assert a[1..][k - 1] < b[1..][k - 1];
    }
    if LexLess(a[1..], b[1..]) {
      var k :| 0 <= k < |a[1..]| && a[1..][..k] == b[1..][..k] && a[1..][k] < b[1..][k];
      assert a[..k + 1] == [a[0]] + a[1..][..k] && b[..k + 1] == [b[0]] + b[1..][..k];
      assert a[k + 1] < b[k + 1];
    }
  }

  /** A total preorder for every length: antisymmetric in sign and transitive. */
  lemma {:induction false} CompareOrders(a: seq<byte>, b: seq<byte>, c: seq<byte>)
    requires |a| == |b| == |c|
    ensures Compare(b, a) == -Compare(a, b)
    ensures Compare(a, b) <= 0 && Compare(b, c) <= 0 ==> Compare(a, c) <= 0
    ensures Compare(a, b) < 0 && Compare(b, c) <= 0 ==> Compare(a, c) < 0
    ensures Compare(a, b) <= 0 && Compare(b, c) < 0 ==> Compare(a, c) < 0
  {
    if a != [] { CompareOrders(a[1..], b[1..], c[1..]); }
  }

  /** Copying an operand elsewhere first does not change a comparison. */
  lemma {:induction false} CompareAfterMemcpy(m: seq<byte>, d: nat, s: nat, n: nat, other: nat)
    requires d + n <= |m| && s + n <= |m| && other + n <= |m|
    requires (d <= s || s + n <= d) && (other + n <= d || d + n <= other)
    ensures var r := Ascending(m, d, s, n);
      && Compare(r[d..d + n], r[other..other + n]) == Compare(m[s..s + n], m[other..other + n])
      && Compare(r[other..other + n], r[d..d + n]) == Compare(m[other..other + n], m[s..s + n])
  {
    hide Ascending, Compare;
    Agree(m, d, s, n);
    PutRead(m, d, m[s..s + n]);
    PutFrame(m, d, m[s..s + n], other, other + n);
  }
}
