/** Lexicographic order on strings, the order in which the program compares names.
    Comparing code points one by one is what both byte-wise UTF-8 comparison and
    Python's string comparison do. */
module StringOrder {

  predicate Less(a: string, b: string) {
    b != [] && (a == [] || a[0] < b[0] || (a[0] == b[0] && Less(a[1..], b[1..])))
  }

  predicate LessEq(a: string, b: string) {
    a == b || Less(a, b)
  }

  /** Strings differ by their first different character, and a proper prefix comes first. */
  lemma {:induction false} LessIff(a: string, b: string)
    ensures Less(a, b) <==> exists n: nat :: DiffersAt(a, b, n)
  {
    if a != [] && b != [] && a[0] == b[0] {
      LessIff(a[1..], b[1..]);
      if n: nat :| DiffersAt(a[1..], b[1..], n) {
        DiffersLater(a, b, n);
      }
      if n: nat :| DiffersAt(a, b, n) {
        DiffersLater(a, b, n - 1);
      }
    } else {
      assert Less(a, b) <==> DiffersAt(a, b, 0);
      SameStart(a, b);
    }
  }

  lemma SameStart(a: string, b: string)
    ensures forall n: nat :: DiffersAt(a, b, n) && n > 0 ==> a != [] && b != [] && a[0] == b[0]
  {
    forall n: nat | DiffersAt(a, b, n) && n > 0 ensures a != [] && b != [] && a[0] == b[0] {
      assert a[..n][0] == b[..n][0];
    }
  }

  lemma DiffersLater(a: string, b: string, n: nat)
    requires a != [] && b != [] && a[0] == b[0]
    ensures DiffersAt(a, b, n + 1) <==> DiffersAt(a[1..], b[1..], n)
  {
    if n + 1 <= |a| && n + 1 <= |b| {
      assert a[..n + 1] == [a[0]] + a[1..][..n] && b[..n + 1] == [b[0]] + b[1..][..n];
      assert a[1..][..n] == a[..n + 1][1..] && b[1..][..n] == b[..n + 1][1..];
    }
  }

  predicate DiffersAt(a: string, b: string, n: nat) {
    n <= |a| && n < |b| && a[..n] == b[..n] && (n == |a| || a[n] < b[n])
  }

  lemma {:induction false} LessTrans(a: string, b: string, c: string)
    requires Less(a, b) && Less(b, c)
    ensures Less(a, c)
  {
    if a != [] && a[0] == b[0] == c[0] {
      LessTrans(a[1..], b[1..], c[1..]);
    }
  }

  lemma {:induction false} LessIrreflexive(a: string)
    ensures !Less(a, a)
  {
    if a != [] {
      LessIrreflexive(a[1..]);
    }
  }

  lemma {:induction false} LessTotal(a: string, b: string)
    ensures Less(a, b) || a == b || Less(b, a)
  {
    if a != [] && b != [] && a[0] == b[0] {
      LessTotal(a[1..], b[1..]);
      assert a == [a[0]] + a[1..] && b == [b[0]] + b[1..];
    }
  }

  ghost predicate IsLeast(s: set<string>, m: string) {
    m in s && forall x :: x in s && x != m ==> Less(m, x)
  }

  lemma {:induction false} LeastExists(s: set<string>)
    requires s != {}
    ensures exists m :: IsLeast(s, m)
    decreases |s|
  {
    var x :| x in s;
    var rest := s - {x};
    if rest == {} {
      assert s == {x};
      assert IsLeast(s, x);
    } else {
      LeastExists(rest);
      var m :| IsLeast(rest, m);
      LessTotal(x, m);
      if Less(x, m) {
        forall y | y in s && y != x ensures Less(x, y) {
          if y != m { LessTrans(x, m, y); }
        }
        assert IsLeast(s, x);
      } else {
        assert IsLeast(s, m);
      }
    }
  }

  ghost function Least(s: set<string>): (m: string)
    requires s != {}
    ensures IsLeast(s, m)
  {
    LeastExists(s);
    var m :| IsLeast(s, m); m
  }

  lemma LeastUnique(s: set<string>, a: string, b: string)
    requires IsLeast(s, a) && IsLeast(s, b)
    ensures a == b
  {
    if a != b {
      LessTrans(a, b, a);
      LessIrreflexive(a);
    }
  }

  ghost predicate Descending(q: seq<string>) {
    forall i, j :: 0 <= i < j < |q| ==> Less(q[j], q[i])
  }

  /** The last element of a strictly descending sequence is its least. */
  lemma LastIsLeast(q: seq<string>, s: set<string>)
    requires q != [] && Descending(q) && s == (set x | x in q)
    ensures q[|q| - 1] in s && q[|q| - 1] == Least(s)
  {
    assert IsLeast(s, q[|q| - 1]);
    LeastUnique(s, q[|q| - 1], Least(s));
  }

  // ----- Sorted lists of strings -----

  function Insert(x: string, xs: seq<string>): seq<string> {
    if xs == [] || LessEq(x, xs[0]) then [x] + xs else [xs[0]] + Insert(x, xs[1..])
  }

  function Sorted(xs: seq<string>): seq<string> {
    if xs == [] then [] else Insert(xs[0], Sorted(xs[1..]))
  }

  /** Ascending, allowing repetitions. */
  ghost predicate Ascending(xs: seq<string>) {
    xs == [] || (Ascending(xs[1..]) && forall y :: y in xs[1..] ==> LessEq(xs[0], y))
  }

  lemma {:induction false} InsertContents(x: string, xs: seq<string>)
    ensures multiset(Insert(x, xs)) == multiset{x} + multiset(xs)
  {
    if xs != [] && !LessEq(x, xs[0]) {
      InsertContents(x, xs[1..]);
      assert xs == [xs[0]] + xs[1..];
    } else {
      assert Insert(x, xs) == [x] + xs;
    }
  }

  lemma LessEqTrans(a: string, b: string, c: string)
    requires LessEq(a, b) && LessEq(b, c)
    ensures LessEq(a, c)
  {
    if a != b && b != c { LessTrans(a, b, c); }
  }

  lemma {:induction false} InsertAscending(x: string, xs: seq<string>)
    requires Ascending(xs)
    ensures Ascending(Insert(x, xs))
  {
    if xs == [] {
      assert Insert(x, xs) == [x];
    } else if LessEq(x, xs[0]) {
      assert ([x] + xs)[1..] == xs;
      forall y | y in xs ensures LessEq(x, y) {
        if y != xs[0] { LessEqTrans(x, xs[0], y); }
      }
    } else {
      var r := Insert(x, xs[1..]);
      InsertAscending(x, xs[1..]);
      InsertContents(x, xs[1..]);
      LessTotal(x, xs[0]);
      assert ([xs[0]] + r)[1..] == r;
      forall y | y in r ensures LessEq(xs[0], y) {
        assert y in multiset(r);
      }
    }
  }

  lemma {:induction false} SortedSound(xs: seq<string>)
    ensures Ascending(Sorted(xs)) && multiset(Sorted(xs)) == multiset(xs)
  {
    if xs != [] {
      SortedSound(xs[1..]);
      InsertAscending(xs[0], Sorted(xs[1..]));
      InsertContents(xs[0], Sorted(xs[1..]));
      assert xs == [xs[0]] + xs[1..];
    }
  }

  lemma AscendingFirst(a: seq<string>, x: string)
    requires Ascending(a) && x in a
    ensures LessEq(a[0], x)
  {
  }

  lemma {:induction false} SameFirst(a: seq<string>, b: seq<string>)
    requires Ascending(a) && Ascending(b) && a != [] && b != []
    requires a[0] in b && b[0] in a
    ensures a[0] == b[0]
  {
    AscendingFirst(a, b[0]);
    AscendingFirst(b, a[0]);
    if a[0] != b[0] {
      LessTrans(a[0], b[0], a[0]);
      LessIrreflexive(a[0]);
    }
  }

  lemma {:induction false} WithoutFirst(a: seq<string>)
    requires a != []
    ensures multiset(a[1..]) == multiset(a) - multiset{a[0]}
  {
    assert a == [a[0]] + a[1..];
  }

  lemma {:induction false} AscendingUnique(a: seq<string>, b: seq<string>)
    requires Ascending(a) && Ascending(b) && multiset(a) == multiset(b)
    ensures a == b
  {
    assert |multiset(a)| == |multiset(b)|;
    if a != [] {
      assert a[0] in multiset(b) && b[0] in multiset(a);
      SameFirst(a, b);
      WithoutFirst(a);
      WithoutFirst(b);
      AscendingUnique(a[1..], b[1..]);
      assert a == [a[0]] + a[1..] && b == [b[0]] + b[1..];
    }
  }

  /** Comparing sorted lists compares the multisets. */
  lemma SortedEqualIff(a: seq<string>, b: seq<string>)
    ensures Sorted(a) == Sorted(b) <==> multiset(a) == multiset(b)
  {
    SortedSound(a);
    SortedSound(b);
    if multiset(a) == multiset(b) { AscendingUnique(Sorted(a), Sorted(b)); }
  }
}
