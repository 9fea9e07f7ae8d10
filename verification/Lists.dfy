/** Sequences without repeated elements. */
module Lists {
  ghost predicate NoDup<T(!new)>(s: seq<T>) {
    forall i, j :: 0 <= i < j < |s| ==> s[i] != s[j]
  }

  lemma {:induction false} CountAtMostOne<T(!new)>(s: seq<T>, x: T)
    requires NoDup(s)
    ensures multiset(s)[x] <= 1
  {
    if s != [] {
      CountAtMostOne(s[..|s| - 1], x);
      assert s == s[..|s| - 1] + [s[|s| - 1]];
      assert x == s[|s| - 1] ==> x !in multiset(s[..|s| - 1]);
    }
  }

  lemma {:induction false} CountTwo<T>(s: seq<T>, i: nat, j: nat)
    requires i < j < |s| && s[i] == s[j]
    ensures multiset(s)[s[i]] >= 2
  {
    assert s == s[..j] + [s[j]] + s[j + 1..];
    assert s[..j][i] in multiset(s[..j]);
  }

  lemma {:induction false} NoDupIffCounts<T(!new)>(s: seq<T>)
    ensures NoDup(s) <==> forall x :: Times(s, x) <= 1
  {
    if NoDup(s) {
      forall x ensures Times(s, x) <= 1 { CountAtMostOne(s, x); }
    } else {
      var i, j :| 0 <= i < j < |s| && s[i] == s[j];
      CountTwo(s, i, j);
      assert Times(s, s[i]) >= 2;
    }
  }

  lemma {:induction false} NoDupAppend<T(!new)>(a: seq<T>, b: seq<T>)
    ensures NoDup(a + b) <==> NoDup(a) && NoDup(b) && forall x :: x in a ==> x !in b
  {
    var s := a + b;
    if NoDup(s) {
      forall i, j | 0 <= i < j < |a| ensures a[i] != a[j] { assert s[i] != s[j]; }
      forall i, j | 0 <= i < j < |b| ensures b[i] != b[j] { assert s[|a| + i] != s[|a| + j]; }
      forall i, j | 0 <= i < |a| && 0 <= j < |b| ensures a[i] != b[j] { assert s[i] != s[|a| + j]; }
    } else if NoDup(a) && NoDup(b) {
      var i, j :| 0 <= i < j < |s| && s[i] == s[j];
      assert i < |a| <= j;
      assert s[i] in a && s[j] in b;
    }
  }

  /** Renaming by `f` keeps a list duplicate-free exactly when the list is and
      `f` is injective on it. */
  lemma {:induction false} NoDupMap<T(!new), U(!new)>(s: seq<T>, t: seq<U>, f: T -> U)
    requires |s| == |t| && forall i :: 0 <= i < |s| ==> t[i] == f(s[i])
    ensures NoDup(t) <==> NoDup(s) && forall a, b :: a in s && b in s && f(a) == f(b) ==> a == b
  {
    if NoDup(t) {
      forall a, b | a in s && b in s && f(a) == f(b) ensures a == b {
        var i, j :| 0 <= i < |s| && 0 <= j < |s| && s[i] == a && s[j] == b;
        assert t[i] == t[j];
      }
    }
  }

  /** How often `x` occurs. */
  ghost function Times<T>(s: seq<T>, x: T): nat {
    multiset(s)[x]
  }

  lemma {:induction false} TimesAppend<T>(a: seq<T>, b: seq<T>, x: T)
    ensures Times(a + b, x) == Times(a, x) + Times(b, x)
  {
  }

  lemma {:induction false} TimesOne<T>(a: T, x: T)
    ensures Times([a], x) == if a == x then 1 else 0
  {
  }

  lemma {:induction false} TimesNone<T>(x: T)
    ensures Times([], x) == 0
  {
  }

  lemma {:induction false} TimesIn<T>(s: seq<T>, x: T)
    ensures x in s <==> Times(s, x) > 0
  {
    assert x in s <==> x in multiset(s);
  }

  /** The elements of a set, in some order. */
  lemma {:induction false} Listing<T(!new)>(s: set<T>) returns (r: seq<T>)
    ensures NoDup(r) && |r| == |s| && forall x :: x in r <==> x in s
  {
    if s == {} {
      r := [];
    } else {
      var x :| x in s;
      var rest := Listing(s - {x});
      r := rest + [x];
    }
  }
}
