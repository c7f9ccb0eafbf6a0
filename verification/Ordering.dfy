/** Queries with ORDER BY: a stable sort on a lexicographic key, selection, and the fact that makes
    them easy to reason about: rows with distinct keys have only one ordered listing. */
module Ordering {

  datatype Key = Key(a: int, b: int, c: int)

  predicate Before(x: Key, y: Key) {
    x.a < y.a || (x.a == y.a && (x.b < y.b || (x.b == y.b && x.c < y.c)))
  }

  function Insert<T>(key: T -> Key, x: T, s: seq<T>): seq<T> {
    if s == [] then [x]
    else if Before(key(s[0]), key(x)) then [s[0]] + Insert(key, x, s[1..])
    else [x] + s
  }

  function SortBy<T>(key: T -> Key, s: seq<T>): seq<T> {
    if s == [] then [] else Insert(key, s[0], SortBy(key, s[1..]))
  }

  function Filter<T>(p: T -> bool, s: seq<T>): seq<T> {
    if s == [] then [] else (if p(s[0]) then [s[0]] else []) + Filter(p, s[1..])
  }

  function Take<T>(s: seq<T>, n: nat): seq<T> { if n <= |s| then s[..n] else s }

  function Drop<T>(s: seq<T>, n: nat): seq<T> { if n <= |s| then s[n..] else [] }

  ghost predicate Ordered<T(!new)>(key: T -> Key, s: seq<T>) {
    forall i, j :: 0 <= i < j < |s| ==> Before(key(s[i]), key(s[j]))
  }

  ghost predicate DistinctKeys<T(!new)>(key: T -> Key, s: seq<T>) {
    forall i, j :: 0 <= i < j < |s| ==> key(s[i]) != key(s[j])
  }

  lemma {:induction false} InsertMembers<T(!new)>(key: T -> Key, x: T, s: seq<T>)
    ensures forall y :: y in Insert(key, x, s) <==> y == x || y in s
  {
    if s != [] && Before(key(s[0]), key(x)) { InsertMembers(key, x, s[1..]); }
  }

  lemma {:induction false} InsertOrdered<T(!new)>(key: T -> Key, x: T, s: seq<T>)
    requires Ordered(key, s) && forall i :: 0 <= i < |s| ==> key(s[i]) != key(x)
    ensures Ordered(key, Insert(key, x, s))
  {
    if s != [] && Before(key(s[0]), key(x)) {
      InsertOrdered(key, x, s[1..]);
      InsertMembers(key, x, s[1..]);
      var rest := Insert(key, x, s[1..]);
      forall i | 0 <= i < |rest| ensures Before(key(s[0]), key(rest[i])) {
        assert rest[i] in rest;
      }
    }
  }

  lemma {:induction false} SortByMembers<T(!new)>(key: T -> Key, s: seq<T>)
    ensures |SortBy(key, s)| == |s| && forall x :: x in SortBy(key, s) <==> x in s
  {
    if s != [] {
      SortByMembers(key, s[1..]);
      InsertMembers(key, s[0], SortBy(key, s[1..]));
      InsertLength(key, s[0], SortBy(key, s[1..]));
    }
  }

  lemma {:induction false} InsertLength<T(!new)>(key: T -> Key, x: T, s: seq<T>)
    ensures |Insert(key, x, s)| == |s| + 1
  {
    if s != [] { InsertLength(key, x, s[1..]); }
  }

  lemma {:induction false} SortByOrders<T(!new)>(key: T -> Key, s: seq<T>)
    requires DistinctKeys(key, s)
    ensures Ordered(key, SortBy(key, s))
  {
    if s != [] {
      SortByOrders(key, s[1..]);
      SortByMembers(key, s[1..]);
      var rest := SortBy(key, s[1..]);
      forall i | 0 <= i < |rest| ensures key(rest[i]) != key(s[0]) {
        assert rest[i] in rest;
      }
      InsertOrdered(key, s[0], rest);
    }
  }

  /** Two ordered listings of the same rows are the same listing. */
  lemma {:induction false} OneOrder<T(!new)>(key: T -> Key, s: seq<T>, t: seq<T>)
    requires Ordered(key, s) && Ordered(key, t)
    requires forall x :: x in s <==> x in t
    ensures s == t
  {
    if s == [] {
      assert forall i :: 0 <= i < |t| ==> t[i] in t;
    } else {
      assert s[0] in t && t[0] in s;
      var i :| 0 <= i < |t| && t[i] == s[0];
      var j :| 0 <= j < |s| && s[j] == t[0];
      assert i == 0;
      forall x ensures x in s[1..] <==> x in t[1..] {
        if x in s[1..] { var k :| 1 <= k < |s| && s[k] == x; assert x in t && Before(key(s[0]), key(x)); }
        if x in t[1..] { var k :| 1 <= k < |t| && t[k] == x; assert x in s && Before(key(t[0]), key(x)); }
      }
      OneOrder(key, s[1..], t[1..]);
    }
  }

  lemma {:induction false} FilterMembers<T(!new)>(p: T -> bool, s: seq<T>)
    ensures forall x :: x in Filter(p, s) <==> x in s && p(x)
  {
    if s != [] { FilterMembers(p, s[1..]); }
  }

  lemma {:induction false} FilterConcat<T(!new)>(p: T -> bool, s: seq<T>, t: seq<T>)
    ensures Filter(p, s + t) == Filter(p, s) + Filter(p, t)
  {
    if s == [] {
      assert s + t == t;
    } else {
      assert (s + t)[1..] == s[1..] + t && (s + t)[0] == s[0];
      FilterConcat(p, s[1..], t);
      var head := if p(s[0]) then [s[0]] else [];
      assert head + (Filter(p, s[1..]) + Filter(p, t)) == (head + Filter(p, s[1..])) + Filter(p, t);
    }
  }

  lemma {:induction false} FilterDistinct<T(!new)>(key: T -> Key, p: T -> bool, s: seq<T>)
    requires DistinctKeys(key, s)
    ensures DistinctKeys(key, Filter(p, s))
  {
    if s != [] {
      FilterDistinct(key, p, s[1..]);
      FilterMembers(p, s[1..]);
      var rest := Filter(p, s[1..]);
      forall i | 0 <= i < |rest| ensures key(rest[i]) != key(s[0]) {
        assert rest[i] in rest;
      }
    }
  }

  lemma {:induction false} FilterOrdered<T(!new)>(key: T -> Key, p: T -> bool, s: seq<T>)
    requires Ordered(key, s)
    ensures Ordered(key, Filter(p, s))
  {
    if s != [] {
      FilterOrdered(key, p, s[1..]);
      FilterMembers(p, s[1..]);
      var rest := Filter(p, s[1..]);
      forall i | 0 <= i < |rest| ensures Before(key(s[0]), key(rest[i])) {
        assert rest[i] in rest;
      }
    }
  }

  /** An ordered query returns the selected rows, each once, in order. */
  lemma QueryOrders<T(!new)>(key: T -> Key, p: T -> bool, s: seq<T>)
    requires DistinctKeys(key, s)
    ensures Ordered(key, SortBy(key, Filter(p, s)))
    ensures forall x :: x in SortBy(key, Filter(p, s)) <==> x in s && p(x)
  {
    FilterDistinct(key, p, s);
    SortByOrders(key, Filter(p, s));
    SortByMembers(key, Filter(p, s));
    FilterMembers(p, s);
  }

  /** Of an ordered listing, what is not among the first n rows is the rest, still in order. */
  lemma TakenAndDropped<T(!new)>(key: T -> Key, s: seq<T>, n: nat)
    requires Ordered(key, s)
    ensures Ordered(key, Drop(s, n)) && forall x :: x in Drop(s, n) <==> x in s && x !in Take(s, n)
  {
    forall x ensures x in Drop(s, n) <==> x in s && x !in Take(s, n) {
      if x in Drop(s, n) {
        var i :| n <= i < |s| && s[i] == x;
        forall j | 0 <= j < n ensures s[j] != x { assert Before(key(s[j]), key(s[i])); }
      }
      if x in s && x !in Take(s, n) {
        var i :| 0 <= i < |s| && s[i] == x;
        assert n <= i by { assert forall j :: 0 <= j < n && j < |s| ==> s[j] in Take(s, n); }
        assert Drop(s, n)[i - n] == x;
      }
    }
  }

  lemma {:induction false} FilterAll<T(!new)>(p: T -> bool, s: seq<T>)
    requires forall x :: x in s ==> p(x)
    ensures Filter(p, s) == s
  {
    if s != [] { FilterAll(p, s[1..]); }
  }

  lemma FilterNone<T(!new)>(p: T -> bool, s: seq<T>)
    requires forall x :: x in s ==> !p(x)
    ensures Filter(p, s) == []
  {
    FilterMembers(p, s);
    if Filter(p, s) != [] { assert Filter(p, s)[0] in Filter(p, s); }
  }

  lemma {:induction false} DistinctCount<T(!new)>(s: seq<T>)
    requires forall i, j :: 0 <= i < j < |s| ==> s[i] != s[j]
    ensures |set x | x in s| == |s|
  {
    if s == [] {
      assert (set x | x in s) == {};
    } else {
      DistinctCount(s[1..]);
      assert (set x | x in s) == (set x | x in s[1..]) + {s[0]};
    }
  }

  /** In an ordered listing as many rows come before a row as its position says. */
  lemma Rank<T(!new)>(key: T -> Key, line: seq<T>, k: nat, ahead: set<T>)
    requires Ordered(key, line) && k < |line|
    requires forall x :: x in ahead <==> x in line && Before(key(x), key(line[k]))
    ensures |ahead| == k
  {
    assert forall j :: k < j < |line| ==> Before(key(line[k]), key(line[j]));
    forall x ensures x in ahead <==> x in line[..k] {
      if x in ahead {
        var j :| 0 <= j < |line| && line[j] == x;
      }
      if x in line[..k] {
        var j :| 0 <= j < k && line[j] == x;
        assert Before(key(line[j]), key(line[k]));
      }
    }
    forall i, j | 0 <= i < j < k ensures line[i] != line[j] { assert Before(key(line[i]), key(line[j])); }
    DistinctCount(line[..k]);
    assert ahead == set x | x in line[..k];
  }
}
