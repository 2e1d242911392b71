/** String order as JavaScript's `<` compares strings, and the sort built on it. */
module Ordering {

  /** Lexicographic order by code unit. */
  predicate Lt(a: string, b: string) {
    if |b| == 0 then false
    else if |a| == 0 then true
    else a[0] < b[0] || (a[0] == b[0] && Lt(a[1..], b[1..]))
  }

  lemma {:induction false} LtIrreflexive(a: string)
    ensures !Lt(a, a)
  {
    if a != [] {
      LtIrreflexive(a[1..]);
    }
  }

  lemma {:induction false} LtTransitive(a: string, b: string, c: string)
    requires Lt(a, b) && Lt(b, c)
    ensures Lt(a, c)
  {
    if a != [] && a[0] == b[0] && b[0] == c[0] {
      LtTransitive(a[1..], b[1..], c[1..]);
    }
  }

  lemma {:induction false} LtTotal(a: string, b: string)
    ensures Lt(a, b) || a == b || Lt(b, a)
  {
    if a != [] && b != [] && a[0] == b[0] {
      LtTotal(a[1..], b[1..]);
      assert a == [a[0]] + a[1..] && b == [b[0]] + b[1..];
    }
  }

  predicate Le(a: string, b: string) {
    a == b || Lt(a, b)
  }

  lemma LeTransitive(a: string, b: string, c: string)
    requires Le(a, b) && Le(b, c)
    ensures Le(a, c)
  {
    if Lt(a, b) && Lt(b, c) {
      LtTransitive(a, b, c);
    }
  }

  /** Lexicographic order on pairs: the comparator of the link and delta sorts. */
  predicate PairLt(x: (string, string), y: (string, string)) {
    Lt(x.0, y.0) || (x.0 == y.0 && Lt(x.1, y.1))
  }

  lemma PairLtIrreflexive(x: (string, string))
    ensures !PairLt(x, x)
  {
    LtIrreflexive(x.0);
    LtIrreflexive(x.1);
  }

  lemma PairLtTransitive(x: (string, string), y: (string, string), z: (string, string))
    requires PairLt(x, y) && PairLt(y, z)
    ensures PairLt(x, z)
  {
    if Lt(x.0, y.0) && Lt(y.0, z.0) {
      LtTransitive(x.0, y.0, z.0);
    } else if x.0 == y.0 && y.0 == z.0 {
      LtTransitive(x.1, y.1, z.1);
    }
  }

  lemma PairLtTotal(x: (string, string), y: (string, string))
    ensures PairLt(x, y) || x == y || PairLt(y, x)
  {
    LtTotal(x.0, y.0);
    LtTotal(x.1, y.1);
  }

  /** Ascending by key: no later element's key comes strictly before an earlier one's. */
  ghost predicate SortedOn<T>(xs: seq<T>, key: T -> (string, string)) {
    forall i, j :: 0 <= i < j < |xs| ==> !PairLt(key(xs[j]), key(xs[i]))
  }

  lemma TailSorted<T>(xs: seq<T>, key: T -> (string, string))
    requires SortedOn(xs, key) && xs != []
    ensures SortedOn(xs[1..], key)
    ensures forall z :: z in xs ==> !PairLt(key(z), key(xs[0]))
  {
    PairLtIrreflexive(key(xs[0]));
    forall z | z in xs ensures !PairLt(key(z), key(xs[0])) {
      var j :| 0 <= j < |xs| && xs[j] == z;
    }
  }

  lemma BelowHeadBelowAll<T>(x: T, xs: seq<T>, key: T -> (string, string))
    requires SortedOn(xs, key) && xs != [] && !PairLt(key(xs[0]), key(x))
    ensures forall z :: z in xs ==> !PairLt(key(z), key(x))
  {
    TailSorted(xs, key);
    forall z | z in xs ensures !PairLt(key(z), key(x)) {
      PairLtTotal(key(xs[0]), key(z));
      if PairLt(key(z), key(x)) && PairLt(key(xs[0]), key(z)) {
        PairLtTransitive(key(xs[0]), key(z), key(x));
      }
    }
  }

  lemma HeadBelowAll<T>(head: T, x: T, tail: seq<T>, rest: seq<T>, key: T -> (string, string))
    requires !PairLt(key(x), key(head)) && forall z :: z in tail ==> !PairLt(key(z), key(head))
    requires SortedOn(rest, key) && multiset(rest) == multiset{x} + multiset(tail)
    ensures SortedOn([head] + rest, key)
  {
    hide PairLt;
    forall z | z in rest ensures !PairLt(key(z), key(head)) {
      assert z in multiset(rest);
    }
  }

  /** Insert before the first element whose key is not below `x`'s, so equal keys keep their order. */
  function InsertSorted<T>(x: T, xs: seq<T>, key: T -> (string, string)): (r: seq<T>)
    requires SortedOn(xs, key)
    ensures SortedOn(r, key)
    ensures multiset(r) == multiset{x} + multiset(xs)
  {
    if xs == [] then [x]
    else if PairLt(key(xs[0]), key(x)) then
      assert xs == [xs[0]] + xs[1..];
      TailSorted(xs, key);
      var rest := InsertSorted(x, xs[1..], key);
      PairLtAsymmetric(key(xs[0]), key(x));
      HeadBelowAll(xs[0], x, xs[1..], rest, key);
      [xs[0]] + rest
    else
      BelowHeadBelowAll(x, xs, key);
      [x] + xs
  }

  lemma PairLtAsymmetric(x: (string, string), y: (string, string))
    requires PairLt(x, y)
    ensures !PairLt(y, x)
  {
    if PairLt(y, x) {
      PairLtTransitive(x, y, x);
      PairLtIrreflexive(x);
    }
  }

  /** `[...xs].sort(...)`: the same elements, ascending by key. */
  function SortBy<T>(xs: seq<T>, key: T -> (string, string)): (r: seq<T>)
    ensures SortedOn(r, key)
    ensures multiset(r) == multiset(xs)
  {
    if xs == [] then []
    else
      assert xs == [xs[0]] + xs[1..];
      InsertSorted(xs[0], SortBy(xs[1..], key), key)
  }

  lemma SortKeepsElements<T>(xs: seq<T>, key: T -> (string, string))
    ensures |SortBy(xs, key)| == |xs|
    ensures forall z :: z in SortBy(xs, key) <==> z in xs
  {
    var r := SortBy(xs, key);
    assert |multiset(r)| == |multiset(xs)|;
    forall z ensures z in r <==> z in xs {
      assert z in multiset(r) <==> z in multiset(xs);
    }
  }

  ghost predicate DistinctOn<T>(xs: seq<T>, key: T -> (string, string)) {
    forall i, j :: 0 <= i < j < |xs| ==> key(xs[i]) != key(xs[j])
  }

  lemma {:induction false} AtMostOnce<T>(xs: seq<T>, key: T -> (string, string), v: T)
    requires DistinctOn(xs, key)
    ensures multiset(xs)[v] <= 1
  {
    if xs != [] {
      var front := xs[..|xs| - 1];
      assert xs == front + [xs[|xs| - 1]];
      AtMostOnce(front, key, v);
      assert forall i :: 0 <= i < |front| ==> front[i] == xs[i] && key(front[i]) != key(xs[|xs| - 1]);
    }
  }

  lemma CountedTwice<T>(xs: seq<T>, i: int, j: int)
    requires 0 <= i < j < |xs| && xs[i] == xs[j]
    ensures multiset(xs)[xs[i]] >= 2
  {
    assert xs == xs[..j] + xs[j..];
    assert xs[..j][i] == xs[i] && xs[j..][0] == xs[j];
  }

  lemma SameKeySameElement<T>(xs: seq<T>, key: T -> (string, string), v: T, w: T)
    requires DistinctOn(xs, key) && v in multiset(xs) && w in multiset(xs)
    ensures key(v) == key(w) ==> v == w
  {
    var m :| 0 <= m < |xs| && xs[m] == v;
    var n :| 0 <= n < |xs| && xs[n] == w;
  }

  lemma DistinctSurvivesReordering<T>(xs: seq<T>, ys: seq<T>, key: T -> (string, string))
    requires DistinctOn(xs, key) && multiset(ys) == multiset(xs)
    ensures DistinctOn(ys, key)
  {
    forall i, j | 0 <= i < j < |ys| ensures key(ys[i]) != key(ys[j]) {
      assert ys[i] in multiset(ys) && ys[j] in multiset(ys);
      SameKeySameElement(xs, key, ys[i], ys[j]);
      AtMostOnce(xs, key, ys[i]);
      if ys[i] == ys[j] {
        CountedTwice(ys, i, j);
      }
    }
  }

  ghost predicate Ascending(keys: seq<(string, string)>) {
    forall i, j :: 0 <= i < j < |keys| ==> PairLt(keys[i], keys[j])
  }

  function Keys<T>(rows: seq<T>, key: T -> (string, string)): (r: seq<(string, string)>)
    ensures |r| == |rows| && forall i :: 0 <= i < |rows| ==> r[i] == key(rows[i])
  {
    seq(|rows|, i requires 0 <= i < |rows| => key(rows[i]))
  }

  /** Sorting rows with distinct keys puts the keys in strictly ascending order. */
  lemma SortDistinctAscends<T>(xs: seq<T>, key: T -> (string, string))
    requires DistinctOn(xs, key)
    ensures Ascending(Keys(SortBy(xs, key), key)) && DistinctOn(SortBy(xs, key), key)
  {
    var rows := SortBy(xs, key);
    DistinctSurvivesReordering(xs, rows, key);
    forall i, j | 0 <= i < j < |rows| ensures PairLt(key(rows[i]), key(rows[j])) {
      PairLtTotal(key(rows[i]), key(rows[j]));
    }
  }

  // ---- The names of a set, in order ----

  predicate Lowest(names: set<string>, x: string) {
    x in names && forall y :: y in names ==> Le(x, y)
  }

  lemma {:induction false} SomeLowest(names: set<string>) returns (x: string)
    requires names != {}
    ensures Lowest(names, x)
    decreases names
  {
    var first :| first in names;
    var rest := names - {first};
    var other := first;
    if rest != {} {
      other := SomeLowest(rest);
    }
    LtTotal(first, other);
    x := if Lt(other, first) then other else first;
    forall z | z in names ensures Le(x, z) {
      if z != first {
        assert z in rest;
        if x == first {
          LeTransitive(first, other, z);
        }
      }
    }
  }

  lemma OneLowest(names: set<string>, x: string, y: string)
    requires Lowest(names, x) && Lowest(names, y)
    ensures x == y
  {
    if x != y {
      LtTransitive(x, y, x);
      LtIrreflexive(x);
    }
  }

  /** `ORDER BY address`. */
  function SortedNames(names: set<string>): (r: seq<string>)
    ensures forall x :: x in r <==> x in names
    decreases names
  {
    if names == {} then []
    else
      var x := LowestName(names);
      [x] + SortedNames(names - {x})
  }

  function LowestName(names: set<string>): (x: string)
    requires names != {}
    ensures Lowest(names, x)
  {
    assert exists x :: x in names && Lowest(names, x) by {
      var x := SomeLowest(names);
    }
    assert forall x, y :: x in names && y in names && Lowest(names, x) && Lowest(names, y) ==> x == y by {
      forall x, y | Lowest(names, x) && Lowest(names, y) ensures x == y {
        OneLowest(names, x, y);
      }
    }
    var x :| x in names && Lowest(names, x);
    x
  }

  /** The names come in strictly ascending order. */
  lemma {:induction false} SortedNamesAscend(names: set<string>, i: int, j: int)
    requires 0 <= i < j < |SortedNames(names)|
    ensures Lt(SortedNames(names)[i], SortedNames(names)[j])
    decreases names
  {
    var x := LowestName(names);
    var rest := SortedNames(names - {x});
    if i == 0 {
      assert rest[j - 1] in rest;
      assert Le(x, rest[j - 1]) && rest[j - 1] != x;
    } else {
      SortedNamesAscend(names - {x}, i - 1, j - 1);
    }
  }
}
