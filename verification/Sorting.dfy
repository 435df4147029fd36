/** Stable sorting by a key, as `Array.prototype.sort` does it, and the fact the rest of the
    project needs from it: two sequences sort to the same sequence exactly when, for every
    key, their elements of that key are the same in the same order. */
module Sorting {

  ghost predicate TotalPreorder<K(!new)>(le: (K, K) -> bool) {
    && (forall a, b :: le(a, b) || le(b, a))
    && (forall a, b, c :: le(a, b) && le(b, c) ==> le(a, c))
  }

  ghost predicate TotalOrder<K(!new)>(le: (K, K) -> bool) {
    && TotalPreorder(le)
    && (forall a, b :: le(a, b) && le(b, a) ==> a == b)
  }

  predicate Tied<K>(le: (K, K) -> bool, a: K, b: K) {
    le(a, b) && le(b, a)
  }

  function Map<A, B>(f: A -> B, s: seq<A>): (r: seq<B>)
    ensures |r| == |s|
    ensures forall i :: 0 <= i < |s| ==> r[i] == f(s[i])
  {
    if |s| == 0 then [] else [f(s[0])] + Map(f, s[1..])
  }

  function Insert<T, K>(x: T, s: seq<T>, key: T -> K, le: (K, K) -> bool): seq<T> {
    if |s| == 0 || le(key(x), key(s[0])) then [x] + s
    else [s[0]] + Insert(x, s[1..], key, le)
  }

  function SortBy<T, K>(s: seq<T>, key: T -> K, le: (K, K) -> bool): seq<T> {
    if |s| == 0 then [] else Insert(s[0], SortBy(s[1..], key, le), key, le)
  }

  ghost predicate Ascending<T, K>(s: seq<T>, key: T -> K, le: (K, K) -> bool) {
    forall i, j :: 0 <= i < j < |s| ==> le(key(s[i]), key(s[j]))
  }

  /** The elements of `s` whose key is tied with `k`, in order. */
  function Class<T, K>(s: seq<T>, key: T -> K, le: (K, K) -> bool, k: K): seq<T> {
    if |s| == 0 then []
    else (if Tied(le, key(s[0]), k) then [s[0]] else []) + Class(s[1..], key, le, k)
  }

  ghost predicate SameClasses<T, K(!new)>(a: seq<T>, b: seq<T>, key: T -> K, le: (K, K) -> bool) {
    forall k :: Class(a, key, le, k) == Class(b, key, le, k)
  }

  /** No two positions of `s` have tied keys. */
  ghost predicate DistinctKeys<T, K>(s: seq<T>, key: T -> K, le: (K, K) -> bool) {
    forall i, j :: 0 <= i < j < |s| ==> !Tied(le, key(s[i]), key(s[j]))
  }

  lemma InsertContents<T, K>(x: T, s: seq<T>, key: T -> K, le: (K, K) -> bool)
    ensures multiset(Insert(x, s, key, le)) == multiset{x} + multiset(s)
  {
    if |s| == 0 || le(key(x), key(s[0])) {
    } else {
      InsertContents(x, s[1..], key, le);
      assert s == [s[0]] + s[1..];
    }
  }

  lemma {:induction false} SortContents<T, K>(s: seq<T>, key: T -> K, le: (K, K) -> bool)
    ensures multiset(SortBy(s, key, le)) == multiset(s)
    ensures |SortBy(s, key, le)| == |s|
  {
    if |s| == 0 {
    } else {
      SortContents(s[1..], key, le);
      InsertContents(s[0], SortBy(s[1..], key, le), key, le);
      assert s == [s[0]] + s[1..];
      assert |multiset(SortBy(s, key, le))| == |multiset(s)|;
    }
  }

  lemma InsertAscending<T, K(!new)>(x: T, s: seq<T>, key: T -> K, le: (K, K) -> bool)
    requires TotalPreorder(le) && Ascending(s, key, le)
    ensures Ascending(Insert(x, s, key, le), key, le)
  {
    if |s| == 0 || le(key(x), key(s[0])) {
    } else {
      InsertAscending(x, s[1..], key, le);
      var rest := Insert(x, s[1..], key, le);
      forall j | 0 <= j < |rest|
        ensures le(key(s[0]), key(rest[j]))
      {
        InsertContents(x, s[1..], key, le);
        assert rest[j] in multiset(rest);
        assert rest[j] == x || rest[j] in s[1..];
      }
    }
  }

  lemma {:induction false} SortAscending<T, K(!new)>(s: seq<T>, key: T -> K, le: (K, K) -> bool)
    requires TotalPreorder(le)
    ensures Ascending(SortBy(s, key, le), key, le)
  {
    if |s| == 0 {
    } else {
      SortAscending(s[1..], key, le);
      InsertAscending(s[0], SortBy(s[1..], key, le), key, le);
    }
  }

  lemma ClassCons<T, K>(x: T, s: seq<T>, key: T -> K, le: (K, K) -> bool, k: K)
    ensures Class([x] + s, key, le, k) == (if Tied(le, key(x), k) then [x] else []) + Class(s, key, le, k)
  {
    assert ([x] + s)[1..] == s;
  }

  /** Elements of different classes can be exchanged. */
  lemma ClassExchange<T, K>(x: T, y: T, s: seq<T>, key: T -> K, le: (K, K) -> bool, k: K)
    requires !Tied(le, key(x), k) || !Tied(le, key(y), k)
    ensures Class([x] + ([y] + s), key, le, k) == Class([y] + ([x] + s), key, le, k)
  {
    ClassCons(y, s, key, le, k);
    ClassCons(x, s, key, le, k);
    ClassCons(x, [y] + s, key, le, k);
    ClassCons(y, [x] + s, key, le, k);
  }

  lemma NotBothTied<K(!new)>(a: K, b: K, le: (K, K) -> bool, k: K)
    requires TotalPreorder(le) && !le(a, b)
    ensures !Tied(le, a, k) || !Tied(le, b, k)
  {
  }

  lemma {:induction false} InsertClass<T, K(!new)>(x: T, s: seq<T>, key: T -> K, le: (K, K) -> bool, k: K)
    requires TotalPreorder(le)
    ensures Class(Insert(x, s, key, le), key, le, k) == Class([x] + s, key, le, k)
  {
    if |s| != 0 && !le(key(x), key(s[0])) {
      InsertClass(x, s[1..], key, le, k);
      ClassCons(s[0], Insert(x, s[1..], key, le), key, le, k);
      ClassCons(s[0], [x] + s[1..], key, le, k);
      NotBothTied(key(x), key(s[0]), le, k);
      ClassExchange(x, s[0], s[1..], key, le, k);
      assert s == [s[0]] + s[1..];
    }
  }

  /** Stability: sorting changes no class. */
  lemma {:induction false} SortKeepsClasses<T, K(!new)>(s: seq<T>, key: T -> K, le: (K, K) -> bool, k: K)
    requires TotalPreorder(le)
    ensures Class(SortBy(s, key, le), key, le, k) == Class(s, key, le, k)
  {
    if |s| == 0 {
    } else {
      SortKeepsClasses(s[1..], key, le, k);
      var r := SortBy(s[1..], key, le);
      InsertClass(s[0], r, key, le, k);
      assert ([s[0]] + r)[1..] == r;
    }
  }

  lemma ClassMembers<T, K>(s: seq<T>, key: T -> K, le: (K, K) -> bool, k: K, x: T)
    ensures x in Class(s, key, le, k) <==> x in s && Tied(le, key(x), k)
  {
    if |s| == 0 {
    } else {
      ClassMembers(s[1..], key, le, k, x);
      assert x in s <==> x == s[0] || x in s[1..];
    }
  }

  lemma {:induction false} AscendingWithSameClasses<T, K(!new)>(a: seq<T>, b: seq<T>, key: T -> K, le: (K, K) -> bool)
    requires TotalPreorder(le) && Ascending(a, key, le) && Ascending(b, key, le)
    requires SameClasses(a, b, key, le)
    ensures a == b
  {
    if |a| == 0 {
    } else {
      var k := key(a[0]);
      ClassMembers(a, key, le, k, a[0]);
      ClassMembers(b, key, le, k, a[0]);
      assert |b| != 0;
      var m := key(b[0]);
      ClassMembers(b, key, le, m, b[0]);
      ClassMembers(a, key, le, m, b[0]);
      assert le(m, k) && le(k, m);
      assert Class(a, key, le, k)[0] == a[0];
      assert Class(b, key, le, k)[0] == b[0];
      forall n
        ensures Class(a[1..], key, le, n) == Class(b[1..], key, le, n)
      {
        assert Class(a, key, le, n) == Class(b, key, le, n);
        if Tied(le, key(a[0]), n) {
          assert Class(a, key, le, n)[1..] == Class(a[1..], key, le, n);
          assert Class(b, key, le, n)[1..] == Class(b[1..], key, le, n);
        } else {
          assert Class(a, key, le, n) == Class(a[1..], key, le, n);
          assert Class(b, key, le, n) == Class(b[1..], key, le, n);
        }
      }
      AscendingWithSameClasses(a[1..], b[1..], key, le);
      assert a == [a[0]] + a[1..] && b == [b[0]] + b[1..];
    }
  }

  /** Sorting identifies exactly the sequences that agree class by class. */
  lemma SortsAgreeIff<T, K(!new)>(a: seq<T>, b: seq<T>, key: T -> K, le: (K, K) -> bool)
    requires TotalPreorder(le)
    ensures SortBy(a, key, le) == SortBy(b, key, le) <==> SameClasses(a, b, key, le)
  {
    var sa, sb := SortBy(a, key, le), SortBy(b, key, le);
    forall k
      ensures Class(sa, key, le, k) == Class(a, key, le, k)
      ensures Class(sb, key, le, k) == Class(b, key, le, k)
    {
      SortKeepsClasses(a, key, le, k);
      SortKeepsClasses(b, key, le, k);
    }
    if SameClasses(a, b, key, le) {
      SortAscending(a, key, le);
      SortAscending(b, key, le);
      assert forall k :: Class(a, key, le, k) == Class(b, key, le, k);
      assert SameClasses(sa, sb, key, le);
      AscendingWithSameClasses(sa, sb, key, le);
    }
    if sa == sb {
      assert SameClasses(a, b, key, le);
    }
  }

  lemma SortTwice<T, K(!new)>(s: seq<T>, key: T -> K, le: (K, K) -> bool)
    requires TotalPreorder(le)
    ensures SortBy(SortBy(s, key, le), key, le) == SortBy(s, key, le)
  {
    forall k ensures Class(SortBy(s, key, le), key, le, k) == Class(s, key, le, k) {
      SortKeepsClasses(s, key, le, k);
    }
    assert SameClasses(SortBy(s, key, le), s, key, le);
    SortsAgreeIff(SortBy(s, key, le), s, key, le);
  }

  lemma {:induction false} MapInsert<T, U, K>(f: T -> U, x: T, s: seq<T>, key: T -> K, key': U -> K, le: (K, K) -> bool)
    requires forall y :: y in [x] + s ==> key'(f(y)) == key(y)
    ensures Map(f, Insert(x, s, key, le)) == Insert(f(x), Map(f, s), key', le)
  {
    assert x in [x] + s && forall i :: 0 <= i < |s| ==> s[i] == ([x] + s)[i + 1];
    if |s| == 0 || le(key(x), key(s[0])) {
      assert ([x] + s)[1..] == s;
    } else {
      assert forall y :: y in [x] + s[1..] ==> y in [x] + s;
      MapInsert(f, x, s[1..], key, key', le);
      var r := [s[0]] + Insert(x, s[1..], key, le);
      assert r[1..] == Insert(x, s[1..], key, le);
    }
  }

  /** A key-preserving map commutes with sorting. */
  lemma {:induction false} MapSort<T, U, K>(f: T -> U, s: seq<T>, key: T -> K, key': U -> K, le: (K, K) -> bool)
    requires forall x :: x in s ==> key'(f(x)) == key(x)
    ensures Map(f, SortBy(s, key, le)) == SortBy(Map(f, s), key', le)
  {
    if |s| == 0 {
    } else {
      MapSort(f, s[1..], key, key', le);
      var r := SortBy(s[1..], key, le);
      SortContents(s[1..], key, le);
      forall y | y in [s[0]] + r
        ensures key'(f(y)) == key(y)
      {
        if y != s[0] {
          assert y in r && y in multiset(r) && y in multiset(s[1..]);
        }
      }
      MapInsert(f, s[0], r, key, key', le);
      assert Map(f, s)[1..] == Map(f, s[1..]);
    }
  }

  lemma {:induction false} MapClass<T, U, K>(f: T -> U, s: seq<T>, key: T -> K, key': U -> K, le: (K, K) -> bool, k: K)
    requires forall x :: x in s ==> key'(f(x)) == key(x)
    ensures Map(f, Class(s, key, le, k)) == Class(Map(f, s), key', le, k)
  {
    if |s| == 0 {
    } else {
      MapClass(f, s[1..], key, key', le, k);
      assert Map(f, s)[1..] == Map(f, s[1..]);
      var c := Class(s[1..], key, le, k);
      if Tied(le, key(s[0]), k) {
        assert ([s[0]] + c)[1..] == c;
      } else {
        assert [] + c == c;
      }
    }
  }

  lemma {:induction false} DistinctClass<T, K(!new)>(s: seq<T>, key: T -> K, le: (K, K) -> bool, k: K)
    requires TotalPreorder(le) && DistinctKeys(s, key, le)
    ensures |Class(s, key, le, k)| <= 1
  {
    if |s| != 0 {
      DistinctClass(s[1..], key, le, k);
      var c := Class(s[1..], key, le, k);
      if |c| != 0 {
        ClassMembers(s[1..], key, le, k, c[0]);
        var j :| 0 <= j < |s[1..]| && s[1..][j] == c[0];
        assert !Tied(le, key(s[0]), key(s[j + 1]));
      }
    }
  }

  /** With distinct keys, agreeing class by class is having the same elements. */
  lemma ReorderingKeepsClasses<T, K(!new)>(a: seq<T>, b: seq<T>, key: T -> K, le: (K, K) -> bool, k: K)
    requires TotalPreorder(le) && DistinctKeys(a, key, le)
    requires multiset(a) == multiset(b)
    ensures Class(a, key, le, k) == Class(b, key, le, k)
  {
    ReorderingKeepsDistinct(a, b, key, le);
    DistinctClass(a, key, le, k);
    DistinctClass(b, key, le, k);
    var ca, cb := Class(a, key, le, k), Class(b, key, le, k);
    if |ca| == 1 {
      ClassMembers(a, key, le, k, ca[0]);
      assert ca[0] in multiset(a) && ca[0] in b;
      ClassMembers(b, key, le, k, ca[0]);
    } else if |cb| == 1 {
      ClassMembers(b, key, le, k, cb[0]);
      assert cb[0] in multiset(b) && cb[0] in a;
      ClassMembers(a, key, le, k, cb[0]);
    }
  }

  lemma ReorderingKeepsDistinct<T, K(!new)>(a: seq<T>, b: seq<T>, key: T -> K, le: (K, K) -> bool)
    requires TotalPreorder(le) && DistinctKeys(a, key, le) && multiset(a) == multiset(b)
    ensures DistinctKeys(b, key, le)
  {
    forall i, j | 0 <= i < j < |b|
      ensures !Tied(le, key(b[i]), key(b[j]))
    {
      assert b == b[..i] + [b[i]] + b[i + 1..j] + [b[j]] + b[j + 1..];
      assert multiset{b[i], b[j]} <= multiset(b);
      TwoOccurrences(a, b[i], b[j]);
    }
  }

  lemma TwoOccurrences<T>(a: seq<T>, x: T, y: T)
    requires multiset{x, y} <= multiset(a)
    ensures exists i, j :: 0 <= i < j < |a| && ((a[i] == x && a[j] == y) || (a[i] == y && a[j] == x))
  {
    assert x in multiset(a);
    var i :| 0 <= i < |a| && a[i] == x;
    var rest := a[..i] + a[i + 1..];
    assert a == a[..i] + [a[i]] + a[i + 1..];
    assert multiset(a) == multiset(rest) + multiset{x};
    assert y in multiset(rest);
    var j :| 0 <= j < |rest| && rest[j] == y;
    if j < i {
      assert a[j] == y;
    } else {
      assert a[j + 1] == y;
    }
  }
}
