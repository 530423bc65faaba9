/** Sorting, and per-element translation of sequences, up to permutation. */
module Sorting {
  import opened Orders

  ghost predicate AtMostAll<T>(cmp: (T, T) -> int, x: T, s: seq<T>) {
    forall y | y in s :: cmp(x, y) <= 0
  }

  ghost predicate IsSorted<T>(cmp: (T, T) -> int, s: seq<T>) {
    s != [] ==> AtMostAll(cmp, s[0], s[1..]) && IsSorted(cmp, s[1..])
  }

  function Insert<T>(cmp: (T, T) -> int, x: T, s: seq<T>): seq<T> {
    if s == [] || cmp(x, s[0]) <= 0 then [x] + s else [s[0]] + Insert(cmp, x, s[1..])
  }

  /** Stands for the library sort; `SortedIsUnique` shows any other sort returns the same. */
  function Sort<T>(cmp: (T, T) -> int, s: seq<T>): seq<T> {
    if s == [] then [] else Insert(cmp, s[0], Sort(cmp, s[1..]))
  }

  lemma {:induction false} InsertMembers<T>(cmp: (T, T) -> int, x: T, s: seq<T>)
    ensures multiset(Insert(cmp, x, s)) == multiset{x} + multiset(s)
    ensures forall y :: y in Insert(cmp, x, s) <==> y == x || y in s
  {
    if s != [] && cmp(x, s[0]) > 0 {
      InsertMembers(cmp, x, s[1..]);
      assert s == [s[0]] + s[1..];
    }
  }

  lemma {:induction false} InsertSorts<T(!new)>(cmp: (T, T) -> int, x: T, s: seq<T>)
    requires TotalPreorder(cmp) && IsSorted(cmp, s)
    ensures IsSorted(cmp, Insert(cmp, x, s))
  {
    if s != [] {
      if cmp(x, s[0]) > 0 {
        InsertSorts(cmp, x, s[1..]);
        InsertMembers(cmp, x, s[1..]);
        assert cmp(s[0], x) == -cmp(x, s[0]);
        assert ([s[0]] + Insert(cmp, x, s[1..]))[1..] == Insert(cmp, x, s[1..]);
      } else {
        assert ([x] + s)[1..] == s;
        forall y | y in s ensures cmp(x, y) <= 0 {
          assert y == s[0] || y in s[1..];
        }
      }
    }
  }

  lemma {:induction false} SortSorts<T(!new)>(cmp: (T, T) -> int, s: seq<T>)
    requires TotalPreorder(cmp)
    ensures IsSorted(cmp, Sort(cmp, s)) && multiset(Sort(cmp, s)) == multiset(s)
  {
    if s != [] {
      SortSorts(cmp, s[1..]);
      InsertSorts(cmp, s[0], Sort(cmp, s[1..]));
      InsertMembers(cmp, s[0], Sort(cmp, s[1..]));
      assert s == [s[0]] + s[1..];
    }
  }

  /** Ties are equalities among the elements of `s`. */
  ghost predicate Distinguishes<T>(cmp: (T, T) -> int, s: seq<T>) {
    forall x, y | x in s && y in s :: cmp(x, y) == 0 ==> x == y
  }

  lemma {:induction false} SortedIsUnique<T(!new)>(cmp: (T, T) -> int, a: seq<T>, b: seq<T>)
    requires TotalPreorder(cmp) && Distinguishes(cmp, a)
    requires IsSorted(cmp, a) && IsSorted(cmp, b) && multiset(a) == multiset(b)
    ensures a == b
  {
    if a == [] {
      assert |multiset(b)| == 0;
    } else {
      assert a[0] in multiset(b);
      assert b[0] in multiset(a);
      SameLeast(cmp, a, b);
      assert a == [a[0]] + a[1..] && b == [b[0]] + b[1..];
      TailMultiset(a);
      TailMultiset(b);
      hide TotalPreorder, AtMostAll;
      SortedIsUnique(cmp, a[1..], b[1..]);
    }
  }

  lemma SameLeast<T(!new)>(cmp: (T, T) -> int, a: seq<T>, b: seq<T>)
    requires TotalPreorder(cmp) && Distinguishes(cmp, a)
    requires IsSorted(cmp, a) && IsSorted(cmp, b) && a != [] && b != [] && a[0] in b && b[0] in a
    ensures a[0] == b[0]
  {
    FirstIsLeast(cmp, a, b[0]);
    FirstIsLeast(cmp, b, a[0]);
    hide IsSorted;
    assert cmp(a[0], b[0]) == -cmp(b[0], a[0]);
  }

  lemma TailMultiset<T>(s: seq<T>)
    requires s != []
    ensures multiset(s[1..]) == multiset(s) - multiset{s[0]}
    ensures forall x | x in s[1..] :: x in s
  {
    assert s == [s[0]] + s[1..];
  }

  lemma FirstIsLeast<T(!new)>(cmp: (T, T) -> int, s: seq<T>, x: T)
    requires TotalPreorder(cmp) && IsSorted(cmp, s) && x in s
    ensures cmp(s[0], x) <= 0
  {
    assert x == s[0] || x in s[1..];
    assert cmp(s[0], s[0]) == -cmp(s[0], s[0]);
  }

  lemma SortIgnoresOrder<T(!new)>(cmp: (T, T) -> int, a: seq<T>, b: seq<T>)
    requires TotalPreorder(cmp) && Distinguishes(cmp, a) && multiset(a) == multiset(b)
    ensures Sort(cmp, a) == Sort(cmp, b)
  {
    SortSorts(cmp, a);
    SortSorts(cmp, b);
    forall x | x in Sort(cmp, a) ensures x in a {
      assert x in multiset(Sort(cmp, a));
    }
    SortedIsUnique(cmp, Sort(cmp, a), Sort(cmp, b));
  }

  function FlatMap<A, B>(f: A -> seq<B>, s: seq<A>): seq<B> {
    if s == [] then [] else FlatMap(f, s[..|s| - 1]) + f(s[|s| - 1])
  }

  lemma {:induction false} FlatMapAppend<A, B>(f: A -> seq<B>, s: seq<A>, t: seq<A>)
    ensures FlatMap(f, s + t) == FlatMap(f, s) + FlatMap(f, t)
  {
    if t == [] {
      assert s + t == s;
    } else {
      assert (s + t)[..|s + t| - 1] == s + t[..|t| - 1];
      FlatMapAppend(f, s, t[..|t| - 1]);
    }
  }

  lemma {:induction false} FlatMapAgree<A, B>(f: A -> seq<B>, g: A -> seq<B>, s: seq<A>)
    requires forall x | x in s :: f(x) == g(x)
    ensures FlatMap(f, s) == FlatMap(g, s)
  {
    if s != [] {
      FlatMapAgree(f, g, s[..|s| - 1]);
    }
  }

  lemma {:induction false} FlatMapShorter<A, B>(f: A -> seq<B>, g: A -> seq<B>, s: seq<A>)
    requires forall x | x in s :: |f(x)| <= |g(x)|
    ensures |FlatMap(f, s)| <= |FlatMap(g, s)|
  {
    if s != [] {
      FlatMapShorter(f, g, s[..|s| - 1]);
    }
  }

  /** When no piece is longer than its counterpart, equal results are made of equal pieces. */
  lemma {:induction false} FlatMapPieces<A, B>(f: A -> seq<B>, g: A -> seq<B>, s: seq<A>)
    requires forall x | x in s :: |f(x)| <= |g(x)|
    requires FlatMap(f, s) == FlatMap(g, s)
    ensures forall x | x in s :: f(x) == g(x)
  {
    if s != [] {
      var init, last := s[..|s| - 1], s[|s| - 1];
      FlatMapShorter(f, g, init);
      SameTail(FlatMap(f, init), f(last), FlatMap(g, init), g(last));
      FlatMapPieces(f, g, init);
      assert forall x | x in s :: x in init || x == last;
    }
  }

  lemma SameTail<T>(a: seq<T>, x: seq<T>, b: seq<T>, y: seq<T>)
    requires a + x == b + y && |a| <= |b| && |x| <= |y|
    ensures a == b && x == y
  {
    assert |a + x| == |b + y|;
    assert a == (a + x)[..|a|] && b == (b + y)[..|b|];
    assert x == (a + x)[|a|..] && y == (b + y)[|b|..];
  }

  lemma MiddleOut<T>(p: seq<T>, x: seq<T>, t: seq<T>)
    ensures multiset(p + (x + t)) == multiset(p + t) + multiset(x)
  {
  }

  lemma FlatMapOne<A, B>(f: A -> seq<B>, x: A)
    ensures FlatMap(f, [x]) == f(x)
  {
    assert [x][..0] == [];
  }

  /** Taking out one element takes out what it maps to. */
  lemma FlatMapMiddleOut<A, B>(f: A -> seq<B>, p: seq<A>, x: A, t: seq<A>)
    ensures multiset(FlatMap(f, p + ([x] + t))) == multiset(FlatMap(f, p + t)) + multiset(f(x))
  {
    FlatMapAppend(f, p, t);
    FlatMapAppend(f, p, [x] + t);
    FlatMapAppend(f, [x], t);
    FlatMapOne(f, x);
    hide FlatMap;
    MiddleOut(FlatMap(f, p), f(x), FlatMap(f, t));
  }

  lemma Locate<T>(s: seq<T>, x: T) returns (p: seq<T>, t: seq<T>)
    requires x in s
    ensures s == p + ([x] + t)
  {
    var j :| 0 <= j < |s| && s[j] == x;
    p, t := s[..j], s[j + 1..];
  }

  lemma SameFirst<T>(a: seq<T>, b: seq<T>)
    requires multiset(a) == multiset(b) && a != []
    ensures a[0] in b
  {
    assert a[0] in multiset(a);
    assert a[0] in multiset(b);
  }

  lemma SameRest<T>(x: T, r: seq<T>, p: seq<T>, t: seq<T>)
    requires multiset([x] + r) == multiset(p + ([x] + t))
    ensures multiset(r) == multiset(p + t)
  {
    MiddleOut(p, [x], t);
    MiddleOut([], [x], r);
    assert [] + ([x] + r) == [x] + r && [] + r == r;
    assert multiset(r) == multiset([x] + r) - multiset([x]);
    assert multiset(p + t) == multiset(p + ([x] + t)) - multiset([x]);
  }

  lemma {:induction false} FlatMapPermutation<A, B>(f: A -> seq<B>, a: seq<A>, b: seq<A>)
    requires multiset(a) == multiset(b)
    ensures multiset(FlatMap(f, a)) == multiset(FlatMap(f, b))
  {
    if a == [] {
      assert |multiset(b)| == 0;
    } else {
      SameFirst(a, b);
      var x, r := a[0], a[1..];
      var p, t := Locate(b, x);
      assert a == [x] + r && a == [] + ([x] + r) && [] + r == r;
      SameRest(x, r, p, t);
      FlatMapPermutation(f, r, p + t);
      FlatMapMiddleOut(f, p, x, t);
      FlatMapMiddleOut(f, [], x, r);
    }
  }

  lemma {:induction false} FlatMapMembers<A, B>(f: A -> seq<B>, s: seq<A>, y: B)
    ensures y in FlatMap(f, s) <==> exists x | x in s :: y in f(x)
  {
    if s != [] {
      FlatMapMembers(f, s[..|s| - 1], y);
      assert s == s[..|s| - 1] + [s[|s| - 1]];
    }
  }
}
