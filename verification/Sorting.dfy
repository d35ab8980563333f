// Python's sorted() on a string key: stable, by code point, and blind to the order in which
// its input is enumerated as long as the keys differ.
module Sorting {

  predicate Less(a: string, b: string) {
    b != "" && (a == "" || a[0] < b[0] || (a[0] == b[0] && Less(a[1..], b[1..])))
  }

  lemma {:induction false} LessTrichotomy(a: string, b: string)
    ensures !(Less(a, b) && Less(b, a)) && !Less(a, a)
    ensures Less(a, b) || a == b || Less(b, a)
  {
    if a != "" && b != "" {
      LessTrichotomy(a[1..], b[1..]);
      assert a == [a[0]] + a[1..] && b == [b[0]] + b[1..];
    }
    if a != "" {
      LessTrichotomy(a[1..], a[1..]);
    }
  }

  lemma {:induction false} LessTransitive(a: string, b: string, c: string)
    requires Less(a, b) && Less(b, c)
    ensures Less(a, c)
  {
    if a != "" && a[0] == b[0] == c[0] {
      LessTransitive(a[1..], b[1..], c[1..]);
    }
  }

  // Stable insertion: behind every entry whose key is not greater.
  function Insert<T>(key: T -> string, x: T, q: seq<T>): seq<T> {
    if q == [] || Less(key(x), key(q[0])) then [x] + q else [q[0]] + Insert(key, x, q[1..])
  }

  function SortBy<T>(key: T -> string, q: seq<T>): seq<T> {
    if q == [] then [] else Insert(key, q[|q| - 1], SortBy(key, q[..|q| - 1]))
  }

  ghost predicate Ascending<T>(key: T -> string, q: seq<T>) {
    forall i, j :: 0 <= i < j < |q| ==> Less(key(q[i]), key(q[j]))
  }

  ghost predicate DistinctKeys<T>(key: T -> string, q: seq<T>) {
    forall i, j :: 0 <= i < j < |q| ==> key(q[i]) != key(q[j])
  }

  lemma {:induction false} InsertElements<T>(key: T -> string, x: T, q: seq<T>)
    ensures multiset(Insert(key, x, q)) == multiset(q) + multiset{x}
  {
    if q != [] && !Less(key(x), key(q[0])) {
      InsertElements(key, x, q[1..]);
      assert q == [q[0]] + q[1..];
    }
  }

  lemma {:induction false} InsertAscending<T>(key: T -> string, x: T, q: seq<T>)
    requires Ascending(key, q)
    requires forall y :: y in q ==> key(y) != key(x)
    ensures Ascending(key, Insert(key, x, q))
  {
    if q == [] {
    } else if Less(key(x), key(q[0])) {
      forall j | 0 < j < |q| ensures Less(key(x), key(q[j])) {
        LessTransitive(key(x), key(q[0]), key(q[j]));
      }
    } else {
      LessTrichotomy(key(x), key(q[0]));
      assert q[0] in q;
      InsertAscending(key, x, q[1..]);
      InsertElements(key, x, q[1..]);
      var r := Insert(key, x, q[1..]);
      forall j | 0 <= j < |r| ensures Less(key(q[0]), key(r[j])) {
        assert r[j] in multiset(r);
        if r[j] != x {
          assert r[j] in q[1..];
        }
      }
    }
  }

  // Sorting keeps the elements, and puts entries of distinct keys in ascending order.
  lemma {:induction false} SortSorts<T>(key: T -> string, q: seq<T>)
    ensures multiset(SortBy(key, q)) == multiset(q)
    ensures DistinctKeys(key, q) ==> Ascending(key, SortBy(key, q))
  {
    if q != [] {
      var p, x := q[..|q| - 1], q[|q| - 1];
      assert q == p + [x];
      SortSorts(key, p);
      InsertElements(key, x, SortBy(key, p));
      if DistinctKeys(key, q) {
        forall y | y in SortBy(key, p) ensures key(y) != key(x) {
          assert y in multiset(p);
          var i :| 0 <= i < |p| && p[i] == y;
          assert q[i] == y && q[|q| - 1] == x;
        }
        InsertAscending(key, x, SortBy(key, p));
      }
    }
  }

  lemma SortElements<T>(key: T -> string, q: seq<T>)
    ensures |SortBy(key, q)| == |q|
    ensures forall x :: x in SortBy(key, q) <==> x in q
  {
    SortSorts(key, q);
    var r := SortBy(key, q);
    assert |multiset(r)| == |r| && |multiset(q)| == |q|;
    forall x ensures x in r <==> x in q {
      assert x in r <==> x in multiset(r);
      assert x in q <==> x in multiset(q);
    }
  }

  // There is one ascending arrangement of given elements.
  lemma {:induction false} AscendingUnique<T>(key: T -> string, q: seq<T>, r: seq<T>)
    requires Ascending(key, q) && Ascending(key, r)
    requires forall x :: x in q <==> x in r
    ensures q == r
  {
    assert q != [] ==> q[0] in q;
    assert r != [] ==> r[0] in r;
    if q != [] {
      var i :| 0 <= i < |r| && r[i] == q[0];
      var j :| 0 <= j < |q| && q[j] == r[0];
      LessTrichotomy(key(q[0]), key(r[0]));
      assert q[0] == r[0];
      forall x ensures x in q[1..] <==> x in r[1..] {
        AscendingTail(key, q, x);
        AscendingTail(key, r, x);
      }
      AscendingUnique(key, q[1..], r[1..]);
    }
  }

  lemma AscendingTail<T>(key: T -> string, q: seq<T>, x: T)
    requires Ascending(key, q) && q != []
    ensures x in q[1..] <==> x in q && x != q[0]
  {
    LessTrichotomy(key(q[0]), key(q[0]));
  }

  // The order of enumeration does not show in the result.
  lemma SortForgetsOrder<T>(key: T -> string, q: seq<T>, r: seq<T>)
    requires DistinctKeys(key, q) && DistinctKeys(key, r)
    requires forall x :: x in q <==> x in r
    ensures SortBy(key, q) == SortBy(key, r)
  {
    SortSorts(key, q);
    SortSorts(key, r);
    SortElements(key, q);
    SortElements(key, r);
    AscendingUnique(key, SortBy(key, q), SortBy(key, r));
  }

  // ---- sets ----

  ghost predicate Enumerates<T(!new)>(q: seq<T>, s: set<T>) {
    (forall i, j :: 0 <= i < j < |q| ==> q[i] != q[j]) && forall x :: x in q <==> x in s
  }

  // Any order at all, as a dictionary or a frozenset hands its elements out.
  method Enumerate(s: set<string>) returns (q: seq<string>)
    ensures Enumerates(q, s)
  {
    q := [];
    var rest := s;
    while rest != {}
      invariant rest <= s && Enumerates(q, s - rest)
      decreases rest
    {
      var x :| x in rest;
      q := q + [x];
      rest := rest - {x};
    }
  }

  const SELF: string -> string := s => s

  ghost predicate SortedAs(q: seq<string>, s: set<string>) {
    Ascending(SELF, q) && forall x :: x in q <==> x in s
  }

  predicate IsLeast(m: string, s: set<string>) {
    m in s && forall x :: x in s && x != m ==> Less(m, x)
  }

  // sorted() of a set: the one ascending sequence of its elements.
  function SortedSet(s: set<string>): (q: seq<string>)
    ensures SortedAs(q, s)
  {
    if s == {} then []
    else
      LeastExists(s);
      LeastUnique(s);
      var least :| IsLeast(least, s);
      [least] + SortedSet(s - {least})
  }

  lemma LeastUnique(s: set<string>)
    ensures forall a, b :: IsLeast(a, s) && IsLeast(b, s) ==> a == b
  {
    forall a, b | IsLeast(a, s) && IsLeast(b, s) ensures a == b {
      LessTrichotomy(a, b);
    }
  }

  lemma {:induction false} LeastExists(s: set<string>)
    requires s != {}
    ensures exists least :: IsLeast(least, s)
    decreases |s|
  {
    var a :| a in s;
    var rest := s - {a};
    assert s == {a} + rest;
    if rest == {} {
      assert IsLeast(a, s);
    } else {
      LeastExists(rest);
      var b :| IsLeast(b, rest);
      LessTrichotomy(a, b);
      if Less(a, b) {
        forall x | x in s && x != a ensures Less(a, x) {
          if x != b { LessTransitive(a, b, x); }
        }
        assert IsLeast(a, s);
      } else {
        assert IsLeast(b, s);
      }
    }
  }

  method SortStrings(s: set<string>) returns (q: seq<string>)
    ensures q == SortedSet(s)
  {
    var e := Enumerate(s);
    q := SortBy(SELF, e);
    SortSorts(SELF, e);
    SortElements(SELF, e);
    AscendingUnique(SELF, q, SortedSet(s));
  }
}
