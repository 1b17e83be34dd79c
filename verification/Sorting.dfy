/** The stable key sort that the program takes from its standard library. */
module Sorting {

  ghost predicate SortedBy<T>(xs: seq<T>, key: T -> int) {
    forall i, j :: 0 <= i < j < |xs| ==> key(xs[i]) <= key(xs[j])
  }

  /** Insert before the first element with a key that is not smaller. */
  function Insert<T>(x: T, xs: seq<T>, key: T -> int): seq<T> {
    if xs == [] || key(x) <= key(xs[0]) then [x] + xs
    else [xs[0]] + Insert(x, xs[1..], key)
  }

  function SortBy<T>(xs: seq<T>, key: T -> int): seq<T> {
    if xs == [] then [] else Insert(xs[0], SortBy(xs[1..], key), key)
  }

  lemma {:induction false} InsertContents<T>(x: T, xs: seq<T>, key: T -> int)
    ensures multiset(Insert(x, xs, key)) == multiset{x} + multiset(xs)
    ensures forall y :: y in Insert(x, xs, key) ==> y == x || y in xs
  {
    if xs != [] && key(x) > key(xs[0]) {
      InsertContents(x, xs[1..], key);
      assert xs == [xs[0]] + xs[1..];
    } else {
      assert Insert(x, xs, key) == [x] + xs;
    }
  }

  lemma {:induction false} InsertSorted<T>(x: T, xs: seq<T>, key: T -> int)
    requires SortedBy(xs, key)
    ensures SortedBy(Insert(x, xs, key), key)
  {
    if xs != [] && key(x) > key(xs[0]) {
      var r := Insert(x, xs[1..], key);
      InsertSorted(x, xs[1..], key);
      InsertContents(x, xs[1..], key);
      forall y | y in r ensures key(xs[0]) <= key(y) {
        if y in xs[1..] {
          var k :| 0 <= k < |xs[1..]| && xs[1..][k] == y;
          assert y == xs[k + 1];
        }
      }
    }
  }

  lemma {:induction false} SortBySound<T>(xs: seq<T>, key: T -> int)
    ensures SortedBy(SortBy(xs, key), key)
    ensures multiset(SortBy(xs, key)) == multiset(xs)
    ensures |SortBy(xs, key)| == |xs|
    ensures forall x :: x in SortBy(xs, key) <==> x in xs
  {
    if xs != [] {
      SortBySound(xs[1..], key);
      InsertContents(xs[0], SortBy(xs[1..], key), key);
      InsertSorted(xs[0], SortBy(xs[1..], key), key);
      assert xs == [xs[0]] + xs[1..];
    }
    assert |multiset(SortBy(xs, key))| == |multiset(xs)|;
    forall x ensures x in SortBy(xs, key) <==> x in xs {
      assert x in SortBy(xs, key) <==> x in multiset(SortBy(xs, key));
      assert x in xs <==> x in multiset(xs);
    }
  }

  /** Sorting a sorted list changes nothing. */
  lemma {:induction false} SortBySorted<T>(xs: seq<T>, key: T -> int)
    requires SortedBy(xs, key)
    ensures SortBy(xs, key) == xs
  {
    if xs != [] {
      SortBySorted(xs[1..], key);
      assert xs == [xs[0]] + xs[1..];
    }
  }
}
