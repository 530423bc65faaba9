/** Three-way comparisons, and the zero-padded lexicographic order built from one. */
module Orders {

  function Sign(x: int): (s: int)
  {
    if x < 0 then -1 else if x > 0 then 1 else 0
  }

  /** The first comparison that is not a tie decides. */
  function Then(first: int, second: int): int {
    if first != 0 then first else second
  }

  /** A three-way comparison that is reflexive, antisymmetric up to ties, transitive and total. */
  ghost predicate TotalPreorder<T(!new)>(cmp: (T, T) -> int) {
    && (forall x, y :: -1 <= cmp(x, y) <= 1)
    && (forall x, y :: cmp(x, y) == -cmp(y, x))
    && (forall x, y, z :: cmp(x, y) <= 0 && cmp(y, z) <= 0 ==> cmp(x, z) <= 0)
  }

  /** Two tied values are interchangeable on either side of any comparison. */
  lemma TiesAreInterchangeable<T(!new)>(cmp: (T, T) -> int, x: T, y: T, z: T)
    requires TotalPreorder(cmp)
    requires cmp(x, y) == 0
    ensures cmp(x, z) == cmp(y, z) && cmp(z, x) == cmp(z, y)
  {
    assert cmp(y, x) == 0;
    assert cmp(x, z) == -cmp(z, x) && cmp(y, z) == -cmp(z, y);
    assert cmp(x, z) <= 0 <==> cmp(y, z) <= 0;
    assert cmp(z, x) <= 0 <==> cmp(z, y) <= 0;
  }

  function Head<T>(a: seq<T>, pad: T): T {
    if a == [] then pad else a[0]
  }

  function Tail<T>(a: seq<T>): seq<T> {
    if a == [] then [] else a[1..]
  }

  /** Lexicographic comparison in which the shorter sequence is continued with `pad`. */
  function LexPadded<T>(cmp: (T, T) -> int, pad: T, a: seq<T>, b: seq<T>): int
    decreases |a| + |b|
  {
    if a == [] && b == [] then 0
    else Then(cmp(Head(a, pad), Head(b, pad)), LexPadded(cmp, pad, Tail(a), Tail(b)))
  }

  lemma LexPaddedStep<T(!new)>(cmp: (T, T) -> int, pad: T, a: seq<T>, b: seq<T>)
    requires TotalPreorder(cmp)
    ensures LexPadded(cmp, pad, a, b)
         == Then(cmp(Head(a, pad), Head(b, pad)), LexPadded(cmp, pad, Tail(a), Tail(b)))
  {
    assert cmp(pad, pad) == -cmp(pad, pad);
  }

  lemma {:induction false} LexPaddedAntisymmetric<T(!new)>(cmp: (T, T) -> int, pad: T, a: seq<T>, b: seq<T>)
    requires TotalPreorder(cmp)
    ensures -1 <= LexPadded(cmp, pad, a, b) <= 1
    ensures LexPadded(cmp, pad, a, b) == -LexPadded(cmp, pad, b, a)
    decreases |a| + |b|
  {
    if a != [] || b != [] {
      LexPaddedAntisymmetric(cmp, pad, Tail(a), Tail(b));
    }
  }

  lemma {:induction false} LexPaddedTransitive<T(!new)>(cmp: (T, T) -> int, pad: T, a: seq<T>, b: seq<T>, c: seq<T>)
    requires TotalPreorder(cmp)
    requires LexPadded(cmp, pad, a, b) <= 0 && LexPadded(cmp, pad, b, c) <= 0
    ensures LexPadded(cmp, pad, a, c) <= 0
    decreases |a| + |b| + |c|
  {
    if a != [] || b != [] || c != [] {
      var x, y, z := Head(a, pad), Head(b, pad), Head(c, pad);
      LexPaddedStep(cmp, pad, a, b);
      LexPaddedStep(cmp, pad, b, c);
      LexPaddedStep(cmp, pad, a, c);
      assert cmp(x, y) <= 0 && cmp(y, z) <= 0;
      if cmp(x, z) == 0 {
        assert cmp(z, x) == 0 && cmp(y, x) <= 0 && cmp(z, y) <= 0;
        assert cmp(x, y) == 0 && cmp(y, z) == 0;
        LexPaddedTransitive(cmp, pad, Tail(a), Tail(b), Tail(c));
      }
    }
  }

  /** A common prefix never decides. */
  lemma {:induction false} LexPaddedPrefix<T(!new)>(cmp: (T, T) -> int, pad: T, p: seq<T>, a: seq<T>, b: seq<T>)
    requires TotalPreorder(cmp)
    ensures LexPadded(cmp, pad, p + a, p + b) == LexPadded(cmp, pad, a, b)
  {
    if p == [] {
      assert p + a == a && p + b == b;
    } else {
      LexPaddedPrefix(cmp, pad, p[1..], a, b);
      assert (p + a)[1..] == p[1..] + a && (p + b)[1..] == p[1..] + b;
      assert cmp(p[0], p[0]) == -cmp(p[0], p[0]);
    }
  }

  function IntOrder(): (int, int) -> int {
    (x: int, y: int) => Sign(x - y)
  }

  lemma IntOrderIsTotal()
    ensures TotalPreorder(IntOrder())
  {
    assert forall x, y :: IntOrder()(x, y) == Sign(x - y);
  }

  /** Byte-wise string order: code points compare as their UTF-8 encodings do,
      and a proper prefix comes first. */
  function StringOrder(a: string, b: string): int {
    LexPadded(IntOrder(), 0, Codes(a), Codes(b))
  }

  function Codes(s: string): seq<int> {
    seq(|s|, i requires 0 <= i < |s| => s[i] as int + 1)
  }

  lemma StringOrderStep(a: string, b: string)
    requires a != "" && b != ""
    ensures StringOrder(a, b) == Then(Sign(a[0] as int - b[0] as int), StringOrder(a[1..], b[1..]))
  {
    assert Codes(a)[1..] == Codes(a[1..]) && Codes(b)[1..] == Codes(b[1..]);
    assert IntOrder()(Codes(a)[0], Codes(b)[0]) == Sign(Codes(a)[0] - Codes(b)[0]);
  }

  lemma StringOrderIsTotal(a: string, b: string, c: string)
    ensures -1 <= StringOrder(a, b) <= 1
    ensures StringOrder(a, b) == -StringOrder(b, a)
    ensures StringOrder(a, b) <= 0 && StringOrder(b, c) <= 0 ==> StringOrder(a, c) <= 0
    ensures StringOrder(a, b) == 0 <==> a == b
  {
    IntOrderIsTotal();
    LexPaddedAntisymmetric(IntOrder(), 0, Codes(a), Codes(b));
    if StringOrder(a, b) <= 0 && StringOrder(b, c) <= 0 {
      LexPaddedTransitive(IntOrder(), 0, Codes(a), Codes(b), Codes(c));
    }
    StringOrderTieIsEquality(a, b);
  }

  lemma {:induction false} StringOrderTieIsEquality(a: string, b: string)
    ensures StringOrder(a, b) == 0 <==> a == b
    decreases |a| + |b|
  {
    if a != "" && b != "" {
      StringOrderStep(a, b);
      StringOrderTieIsEquality(a[1..], b[1..]);
      hide StringOrder;
      assert a == [a[0]] + a[1..] && b == [b[0]] + b[1..];
    } else if a != "" || b != "" {
      var x, y := Head(Codes(a), 0), Head(Codes(b), 0);
      assert IntOrder()(x, y) == Sign(x - y) != 0;
    }
  }
}
