/** What the version order means: when two versions tie, and where `~` and `+` suffixes sort. */
module VersionLaws {
  import opened Orders
  import opened Text
  import opened Versions
  import opened Decimals

  // ----- The parts of a version -----

  /** A version as the policy writes it: an optional epoch, the upstream version, an optional revision. */
  function Assemble(epoch: Option<nat>, upstream: string, revision: Option<string>): string {
    var tail := if revision.Some? then upstream + "-" + revision.value else upstream;
    if epoch.Some? then Decimal(epoch.value) + ":" + tail else tail
  }

  /** The revision starts after the last hyphen; a missing one counts as 0. */
  lemma RevisionIsCut(upstream: string, revision: Option<string>)
    requires if revision.Some? then Lacks(revision.value, '-') else Lacks(upstream, '-')
    ensures CutRevision(if revision.Some? then upstream + "-" + revision.value else upstream)
         == (upstream, if revision.Some? then revision.value else "0")
  {
    if revision.Some? {
      var head := upstream + "-";
      LastIndexOfAppend(head, revision.value, '-');
      assert LastIndexOf(head, '-') == |upstream|;
      hide LastIndexOf;
      assert (head + revision.value)[..|upstream|] == upstream;
      assert (head + revision.value)[|upstream| + 1..] == revision.value;
    } else {
      LastIndexOfAppend("", upstream, '-');
      assert "" + upstream == upstream;
    }
  }

  lemma EpochIsCut(epoch: nat, tail: string)
    requires epoch <= MAX_INT
    ensures CutEpoch(Decimal(epoch) + ":" + tail) == (epoch, tail)
  {
    AtoiDecimal(epoch);
    hide IndexOf, Decimal, Atoi;
    FirstColon(Decimal(epoch), tail);
  }

  lemma AtoiDecimal(n: nat)
    requires n <= MAX_INT
    ensures Atoi(Decimal(n)) == Some(n) && Lacks(Decimal(n), ':')
  {
    DecimalRoundTrip(n);
    var d := Decimal(n);
    hide Decimal, Value;
    assert d[0] != '-' && d[0] != '+';
  }

  lemma FirstColon(d: string, tail: string)
    requires Lacks(d, ':')
    ensures var s := d + ":" + tail;
            IndexOf(s, ':') == |d| && s[..|d|] == d && s[|d| + 1..] == tail
  {
    IndexOfLacks(d, ':');
    IndexOfAppend(d, ":", ':');
    IndexOfAppend(d + ":", tail, ':');
    assert IndexOf(":", ':') == 0;
    hide IndexOf;
    CutAt(d, tail);
  }

  lemma CutAt(d: string, tail: string)
    ensures (d + ":" + tail)[..|d|] == d && (d + ":" + tail)[|d| + 1..] == tail
  {
  }

  /** Splitting recovers the parts: the epoch up to the first colon, the revision after the last hyphen. */
  lemma SplitRoundTrip(epoch: Option<nat>, upstream: string, revision: Option<string>)
    requires if epoch.Some? then epoch.value <= MAX_INT else Lacks(Assemble(epoch, upstream, revision), ':')
    requires if revision.Some? then Lacks(revision.value, '-') else Lacks(upstream, '-')
    ensures SplitVersion(Assemble(epoch, upstream, revision))
         == Split(if epoch.Some? then epoch.value else 0, upstream, if revision.Some? then revision.value else "0")
  {
    RevisionIsCut(upstream, revision);
    if epoch.Some? {
      EpochIsCut(epoch.value, if revision.Some? then upstream + "-" + revision.value else upstream);
    } else {
      IndexOfLacks(Assemble(epoch, upstream, revision), ':');
    }
    hide CutRevision;
  }

  /** The epochs decide first, then the upstream versions, then the revisions; a missing epoch or
      revision counts as 0. */
  lemma AssembledOrder(u: Unicode, e: Option<nat>, x: string, r: Option<string>, f: Option<nat>, y: string, s: Option<string>)
    requires if e.Some? then e.value <= MAX_INT else Lacks(Assemble(e, x, r), ':')
    requires if f.Some? then f.value <= MAX_INT else Lacks(Assemble(f, y, s), ':')
    requires if r.Some? then Lacks(r.value, '-') else Lacks(x, '-')
    requires if s.Some? then Lacks(s.value, '-') else Lacks(y, '-')
    ensures var m, n := if e.Some? then e.value else 0, if f.Some? then f.value else 0;
            var q, t := if r.Some? then r.value else "0", if s.Some? then s.value else "0";
            VersionOrder(u)(Assemble(e, x, r), Assemble(f, y, s)) ==
              if m < n then -1 else if m > n then 1
              else if PartOrder(u, x, y) != 0 then PartOrder(u, x, y)
              else PartOrder(u, q, t)
  {
    SplitRoundTrip(e, x, r);
    SplitRoundTrip(f, y, s);
    hide Assemble, SplitVersion, PartOrder, CompareSplit, Lacks;
    SplitsCompare(u, SplitVersion(Assemble(e, x, r)), SplitVersion(Assemble(f, y, s)));
  }

  lemma SplitsCompare(u: Unicode, a: Split, b: Split)
    ensures CompareSplit(u, a, b) ==
              if a.epoch < b.epoch then -1 else if a.epoch > b.epoch then 1
              else if PartOrder(u, a.upstream, b.upstream) != 0 then PartOrder(u, a.upstream, b.upstream)
              else PartOrder(u, a.revision, b.revision)
  {
    hide PartOrder;
  }

  /** What is before the first colon counts if it is a machine integer, signs and zeros included. */
  lemma EpochIsNumber(sign: string, digits: string, tail: string)
    requires sign in ["", "+", "-"] && digits != "" && AsciiDigits(digits)
    ensures var v: int := Value(digits);
            var n := if sign == "-" then -v else v;
            var fits := -0x8000_0000_0000_0000 <= n <= 0x7FFF_FFFF_FFFF_FFFF;
            CutEpoch(sign + digits + ":" + tail) == (if fits then n else 0, tail)
  {
    SignedNumber(sign, digits);
    hide Atoi, IndexOf, Value, AsciiDigits;
    FirstColon(sign + digits, tail);
  }

  lemma SignedNumber(sign: string, digits: string)
    requires sign in ["", "+", "-"] && digits != "" && AsciiDigits(digits)
    ensures var v: int := Value(digits);
            var n := if sign == "-" then -v else v;
            Atoi(sign + digits) == (if -MAX_INT - 1 <= n <= MAX_INT then Some(n) else None) && Lacks(sign + digits, ':')
  {
    hide Value;
    var s := sign + digits;
    if sign == "" {
      assert s == digits;
    } else {
      assert s[1..] == digits && s[0] == sign[0];
    }
    assert forall i | 0 <= i < |s| :: s[i] == if i < |sign| then sign[i] else digits[i - |sign|];
  }

  /** Anything else before the first colon is cut off all the same, and the epoch is 0. */
  lemma EpochIsNoNumber(e: string, tail: string)
    requires Lacks(e, ':')
    requires e in ["", "+", "-"] || exists i | 0 <= i < |e| :: !('0' <= e[i] <= '9') && (i > 0 || (e[0] != '+' && e[0] != '-'))
    ensures CutEpoch(e + ":" + tail) == (0, tail)
  {
    NoNumber(e);
    hide Atoi, IndexOf;
    FirstColon(e, tail);
  }

  lemma NoNumber(e: string)
    requires e in ["", "+", "-"] || exists i | 0 <= i < |e| :: !('0' <= e[i] <= '9') && (i > 0 || (e[0] != '+' && e[0] != '-'))
    ensures Atoi(e) == None
  {
    if e !in ["", "+", "-"] {
      var i :| 0 <= i < |e| && !('0' <= e[i] <= '9') && (i > 0 || (e[0] != '+' && e[0] != '-'));
      if e[0] == '+' || e[0] == '-' {
        assert e[1..][i - 1] == e[i];
      }
    }
  }


  // ----- Characters -----

  /** The classes of section 5.6.12 in their order. */
  function CharClass(c: char): int {
    if c == '~' then 0 else if c == '\0' then 1 else if 'a' <= c <= 'z' || 'A' <= c <= 'Z' then 2 else 3
  }

  /** In ASCII, `~` sorts before the end of a run, the end before letters, letters before everything
      else, and within a class the character code decides. */
  lemma CharactersAreOrdered(u: Unicode, c: char, d: char)
    requires AgreesOnAscii(u) && c < '\U{80}' && d < '\U{80}'
    ensures NonDigitOrder(u, c) < NonDigitOrder(u, d) <==>
              CharClass(c) < CharClass(d) || (CharClass(c) == CharClass(d) && c < d)
    ensures NonDigitOrder(u, '\0') == 0
  {
  }

  /** Beyond ASCII, codes decide among letters and among other characters, and a letter comes after
      another character only if its code is higher by more than 256. */
  lemma OtherCharactersAreOrdered(u: Unicode, c: char, d: char)
    requires c != '~' && c != '\0' && d != '~' && d != '\0'
    ensures u.isLetter(c) == u.isLetter(d) ==> NonDigitRunOrder(u, [c], [d]) == Sign(c as int - d as int)
    ensures u.isLetter(c) && !u.isLetter(d) ==> (NonDigitRunOrder(u, [c], [d]) == 1 <==> c as int - d as int > 256)
  {
    NonDigitRunStep(u, [c], [d]);
    assert NonDigitRunOrder(u, "", "") == 0;
  }

  // ----- Blocks -----

  /** The first block is the longest run without digits and the longest run of digits after it. */
  lemma FirstBlockIs(u: Unicode, n: string, d: string, r: string)
    requires (forall c | c in n :: !u.isDigit(c)) && (forall c | c in d :: u.isDigit(c))
    requires d == "" ==> r == ""
    requires r != "" ==> !u.isDigit(r[0])
    ensures FirstBlock(u, n + (d + r)) == (Block(n, d), r)
  {
    var s := n + (d + r);
    assert forall i | 0 <= i < |n| :: s[i] == n[i] && n[i] in n;
    SpanIsMaximal(s, NotDigit(u), |n|);
    assert s[..|n|] == n && s[|n|..] == d + r;
    assert forall i | 0 <= i < |d| :: (d + r)[i] == d[i] && d[i] in d;
    SpanIsMaximal(d + r, u.isDigit, |d|);
    assert (d + r)[..|d|] == d && (d + r)[|d|..] == r;
  }

  // ----- The order of the policy -----

  /** Every digit, as the character tables see it, is an ASCII digit. */
  predicate DigitsAreAscii(u: Unicode, s: string) {
    forall c | c in s :: u.isDigit(c) ==> '0' <= c <= '9'
  }

  lemma {:induction false} SpanHolds(s: string, p: char -> bool)
    ensures forall c | c in Span(s, p).0 :: p(c)
  {
    if s != "" && p(s[0]) {
      SpanHolds(s[1..], p);
    }
  }

  lemma FirstBlockDigits(u: Unicode, s: string)
    requires DigitsAreAscii(u, s)
    ensures AsciiDigits(FirstBlock(u, s).0.digits) && DigitsAreAscii(u, FirstBlock(u, s).1)
  {
    var rest := Span(s, NotDigit(u)).1;
    SpanHolds(rest, u.isDigit);
    SpanIsSlice(s, NotDigit(u));
    SpanIsSlice(rest, u.isDigit);
    hide Span;
    var digits := FirstBlock(u, s).0.digits;
    assert forall i | 0 <= i < |digits| :: digits[i] in digits;
  }

  lemma SpanIsSlice(s: string, p: char -> bool)
    ensures var (taken, rest) := Span(s, p);
            (forall c | c in taken :: c in s) && forall c | c in rest :: c in s
  {
    var (taken, rest) := Span(s, p);
    hide Span;
    assert s == taken + rest;
  }

  /** What section 5.6.12 compares: non-digit runs by their characters' keys, digit runs as numbers. */
  function Numbered(u: Unicode, s: string): seq<(seq<int>, nat)>
    requires DigitsAreAscii(u, s)
    decreases |s|
  {
    if s == "" then []
    else
      FirstBlockDigits(u, s);
      var (b, rest) := FirstBlock(u, s);
      [(Keys(u, b.nonDigit), Value(b.digits))] + Numbered(u, rest)
  }

  /** Keys first, continued with the key of the end of a run, then the number. */
  function NumberedOrder(): ((seq<int>, nat), (seq<int>, nat)) -> int {
    (a: (seq<int>, nat), b: (seq<int>, nat)) => Then(LexPadded(IntOrder(), 0, a.0, b.0), Sign(a.1 - b.1))
  }

  const NOTHING: (seq<int>, nat) := ([], 0)

  lemma BlocksCompareNumbered(u: Unicode, a: Block, b: Block)
    requires AsciiDigits(a.digits) && AsciiDigits(b.digits)
    ensures CompareBlock(u, a, b) == NumberedOrder()((Keys(u, a.nonDigit), Value(a.digits)), (Keys(u, b.nonDigit), Value(b.digits)))
  {
    CompareDigitIsNumeric(a.digits, b.digits);
    hide CompareDigit, Keys, LexPadded, Value;
  }

  /** The first block and what follows it, continued with empty blocks. */
  lemma NumberedStep(u: Unicode, s: string)
    requires DigitsAreAscii(u, s)
    ensures var (b, rest) := FirstBlock(u, s);
            && AsciiDigits(b.digits) && DigitsAreAscii(u, rest)
            && Head(Numbered(u, s), NOTHING) == (Keys(u, b.nonDigit), Value(b.digits))
            && Tail(Numbered(u, s)) == Numbered(u, rest)
  {
    FirstBlockDigits(u, s);
    hide Keys;
    if s == "" {
      assert FirstBlock(u, s) == (NO_BLOCK, "");
      NoKeys(u);
      assert Value("") == 0;
    }
  }

  lemma NoKeys(u: Unicode)
    ensures Keys(u, "") == []
  {
  }

  /** The comparison of version parts is the order of section 5.6.12: lexicographic over pairs of a
      non-digit run and a number of any size, continued with empty runs and zeros. */
  lemma {:induction false} PartOrderIsNumbered(u: Unicode, a: string, b: string)
    requires DigitsAreAscii(u, a) && DigitsAreAscii(u, b)
    ensures PartOrder(u, a, b) == LexPadded(NumberedOrder(), NOTHING, Numbered(u, a), Numbered(u, b))
    decreases |a| + |b|
  {
    hide Keys, FirstBlock, Value, CompareBlock, DigitsAreAscii, PartOrder, Numbered, NumberedOrder;
    if a == "" && b == "" {
      BothEnd(u);
    } else {
      NumberedStep(u, a);
      NumberedStep(u, b);
      PartOrderStep(u, a, b);
      BlocksCompareNumbered(u, FirstBlock(u, a).0, FirstBlock(u, b).0);
      NumberedIsSome(u, a);
      NumberedIsSome(u, b);
      PartOrderIsNumbered(u, FirstBlock(u, a).1, FirstBlock(u, b).1);
    }
  }

  lemma NumberedIsSome(u: Unicode, s: string)
    requires DigitsAreAscii(u, s)
    ensures Numbered(u, s) == [] <==> s == ""
    ensures |FirstBlock(u, s).1| <= |s| && (s != "" ==> |FirstBlock(u, s).1| < |s|)
  {
  }

  lemma BothEnd(u: Unicode)
    ensures DigitsAreAscii(u, "") && Numbered(u, "") == [] && PartOrder(u, "", "") == 0
  {
  }

  // ----- Ties are equal canonical forms -----

  predicate PlainAscii(s: string) {
    forall i | 0 <= i < |s| :: '\0' < s[i] < '\U{80}'
  }

  function CanonicalBlock(b: Block): Block {
    Block(b.nonDigit, TrimLeft(b.digits, '0'))
  }

  /** Leading zeros of every digit run and trailing empty blocks carry no meaning. */
  function Canonical(bs: seq<Block>): seq<Block> {
    if bs == [] then [] else Prepend(CanonicalBlock(bs[0]), Canonical(bs[1..]))
  }

  function Prepend(b: Block, rest: seq<Block>): seq<Block> {
    if rest == [] && b == NO_BLOCK then [] else [b] + rest
  }

  lemma PrependIsInjective(a: Block, p: seq<Block>, b: Block, q: seq<Block>)
    ensures Prepend(a, p) == Prepend(b, q) <==> a == b && p == q
  {
    if Prepend(a, p) == Prepend(b, q) && Prepend(a, p) != [] {
      assert Prepend(a, p)[0] == a && Prepend(b, q)[0] == b;
      assert Prepend(a, p)[1..] == p && Prepend(b, q)[1..] == q;
    }
  }

  ghost predicate PlainBlocks(bs: seq<Block>) {
    forall i | 0 <= i < |bs| :: PlainAscii(bs[i].nonDigit)
  }

  lemma NonDigitRunStep(u: Unicode, a: string, b: string)
    requires a != "" || b != ""
    ensures NonDigitRunOrder(u, a, b)
         == Then(Sign(Head(Keys(u, a), 0) - Head(Keys(u, b), 0)), NonDigitRunOrder(u, Tail(a), Tail(b)))
  {
    assert Tail(Keys(u, a)) == Keys(u, Tail(a)) && Tail(Keys(u, b)) == Keys(u, Tail(b));
    assert IntOrder()(Head(Keys(u, a), 0), Head(Keys(u, b), 0)) == Sign(Head(Keys(u, a), 0) - Head(Keys(u, b), 0));
  }

  lemma {:induction false} NonDigitTieIsEquality(u: Unicode, a: string, b: string)
    requires AgreesOnAscii(u) && PlainAscii(a) && PlainAscii(b)
    ensures NonDigitRunOrder(u, a, b) == 0 <==> a == b
    decreases |a| + |b|
  {
    if a != "" || b != "" {
      NonDigitRunStep(u, a, b);
      hide LexPadded;
      if a != "" && b != "" {
        NonDigitTieIsEquality(u, a[1..], b[1..]);
        SameHeadAndTail(a, b);
      }
    }
  }

  lemma SameHeadAndTail(a: string, b: string)
    requires a != "" && b != ""
    ensures a == b <==> a[0] == b[0] && a[1..] == b[1..]
  {
    if a[0] == b[0] && a[1..] == b[1..] {
      assert a == [a[0]] + a[1..] && b == [b[0]] + b[1..];
    }
  }

  lemma BlockTieIsEquality(u: Unicode, a: Block, b: Block)
    requires AgreesOnAscii(u) && PlainAscii(a.nonDigit) && PlainAscii(b.nonDigit)
    ensures CompareBlock(u, a, b) == 0 <==> CanonicalBlock(a) == CanonicalBlock(b)
  {
    NonDigitTieIsEquality(u, a.nonDigit, b.nonDigit);
    CompareDigitIsTotal(a.digits, b.digits, "");
  }

  lemma {:induction false} BlocksTie(u: Unicode, a: seq<Block>, b: seq<Block>)
    requires AgreesOnAscii(u) && PlainBlocks(a) && PlainBlocks(b)
    ensures LexPadded(BlockOrder(u), NO_BLOCK, a, b) == 0 <==> Canonical(a) == Canonical(b)
    decreases |a| + |b|
  {
    if a != [] || b != [] {
      var x, y := Head(a, NO_BLOCK), Head(b, NO_BLOCK);
      BlocksTie(u, Tail(a), Tail(b));
      BlockTieIsEquality(u, x, y);
      CanonicalStep(a);
      CanonicalStep(b);
      PrependIsInjective(CanonicalBlock(x), Canonical(Tail(a)), CanonicalBlock(y), Canonical(Tail(b)));
      LexBlocksStep(u, a, b);
    }
  }

  lemma CanonicalStep(a: seq<Block>)
    ensures Canonical(a) == Prepend(CanonicalBlock(Head(a, NO_BLOCK)), Canonical(Tail(a)))
  {
  }

  lemma LexBlocksStep(u: Unicode, a: seq<Block>, b: seq<Block>)
    ensures LexPadded(BlockOrder(u), NO_BLOCK, a, b)
         == Then(CompareBlock(u, Head(a, NO_BLOCK), Head(b, NO_BLOCK)),
                 LexPadded(BlockOrder(u), NO_BLOCK, Tail(a), Tail(b)))
  {
    BlockOrderIsTotal(u);
    LexPaddedStep(BlockOrder(u), NO_BLOCK, a, b);
  }

  lemma {:induction false} BlocksArePlain(u: Unicode, s: string)
    requires PlainAscii(s)
    ensures PlainBlocks(Blocks(u, s))
    decreases |s|
  {
    if s != "" {
      FirstBlockIsPlain(u, s);
      hide FirstBlock, PlainAscii;
      BlocksArePlain(u, FirstBlock(u, s).1);
    }
  }

  lemma FirstBlockIsPlain(u: Unicode, s: string)
    requires PlainAscii(s)
    ensures PlainAscii(FirstBlock(u, s).0.nonDigit) && PlainAscii(FirstBlock(u, s).1)
  {
    var (b, rest) := FirstBlock(u, s);
    assert b.nonDigit == s[..|b.nonDigit|];
    assert rest == s[|b.nonDigit| + |b.digits|..];
  }

  /** Over ASCII text without NUL, two version parts tie exactly when their canonical forms coincide. */
  lemma PartsTie(u: Unicode, a: string, b: string)
    requires AgreesOnAscii(u) && PlainAscii(a) && PlainAscii(b)
    ensures PartOrder(u, a, b) == 0 <==> Canonical(Blocks(u, a)) == Canonical(Blocks(u, b))
  {
    BlocksArePlain(u, a);
    BlocksArePlain(u, b);
    BlocksTie(u, Blocks(u, a), Blocks(u, b));
  }

  /** Two versions tie exactly when their epochs and both canonical forms coincide. */
  lemma VersionsTie(u: Unicode, a: string, b: string)
    requires AgreesOnAscii(u) && PlainAscii(a) && PlainAscii(b)
    ensures VersionOrder(u)(a, b) == 0 <==>
            var x, y := SplitVersion(a), SplitVersion(b);
            && x.epoch == y.epoch
            && Canonical(Blocks(u, x.upstream)) == Canonical(Blocks(u, y.upstream))
            && Canonical(Blocks(u, x.revision)) == Canonical(Blocks(u, y.revision))
  {
    var x, y := SplitVersion(a), SplitVersion(b);
    SplitIsPlain(a);
    SplitIsPlain(b);
    PartsTie(u, x.upstream, y.upstream);
    PartsTie(u, x.revision, y.revision);
    assert VersionOrder(u)(a, b) == CompareSplit(u, x, y);
  }

  lemma SliceIsPlain(v: string, i: nat, j: nat)
    requires PlainAscii(v) && i <= j <= |v|
    ensures PlainAscii(v[i..j])
  {
  }

  lemma SplitIsPlain(v: string)
    requires PlainAscii(v)
    ensures PlainAscii(SplitVersion(v).upstream) && PlainAscii(SplitVersion(v).revision)
  {
    EpochTailIsPlain(v);
    RevisionPartsArePlain(CutEpoch(v).1);
    hide CutEpoch, CutRevision, PlainAscii;
  }

  lemma EpochTailIsPlain(v: string)
    requires PlainAscii(v)
    ensures PlainAscii(CutEpoch(v).1)
  {
    var colon := IndexOf(v, ':');
    if colon < |v| { SliceIsPlain(v, colon + 1, |v|); }
    hide IndexOf, PlainAscii, Atoi;
  }

  lemma RevisionPartsArePlain(v: string)
    requires PlainAscii(v)
    ensures PlainAscii(CutRevision(v).0) && PlainAscii(CutRevision(v).1)
  {
    var hyphen := LastIndexOf(v, '-');
    hide LastIndexOf;
    if hyphen >= 0 {
      SliceIsPlain(v, 0, hyphen);
      SliceIsPlain(v, hyphen + 1, |v|);
    }
  }

  // ----- Suffixes -----

  /** How text starting with `c` compares with the end of a part. */
  function AgainstEnd(c: char): int {
    if c == '~' then -1 else 1
  }

  ghost predicate Decisive(u: Unicode, t: string) {
    t != "" && !u.isDigit(t[0]) && Sign(NonDigitOrder(u, t[0])) == AgainstEnd(t[0])
  }

  lemma DecisiveRun(u: Unicode, p: string, t: string)
    requires Decisive(u, t)
    ensures NonDigitRunOrder(u, p + t, p) == AgainstEnd(t[0])
  {
    KeysAppend(u, p, t);
    LeadingKey(u, t);
    IntOrderIsTotal();
    hide LexPadded, Keys, TotalPreorder;
    assert Keys(u, p) == Keys(u, p) + [];
    LexPaddedPrefix(IntOrder(), 0, Keys(u, p), Keys(u, t), []);
    LexPaddedStep(IntOrder(), 0, Keys(u, t), []);
  }

  lemma KeysAppend(u: Unicode, p: string, t: string)
    ensures Keys(u, p + t) == Keys(u, p) + Keys(u, t)
  {
  }

  lemma LeadingKey(u: Unicode, t: string)
    requires Decisive(u, t)
    ensures IntOrder()(Head(Keys(u, t), 0), Head([], 0)) == AgainstEnd(t[0])
  {
  }

  lemma {:induction false} SpanAppend(s: string, t: string, p: char -> bool)
    ensures Span(s + t, p) == if Span(s, p).1 == "" then (s + Span(t, p).0, Span(t, p).1)
                              else (Span(s, p).0, Span(s, p).1 + t)
  {
    if s == "" {
      assert s + t == t && "" + Span(t, p).0 == Span(t, p).0;
    } else {
      assert (s + t)[1..] == s[1..] + t;
      if p(s[0]) {
        SpanAppend(s[1..], t, p);
        assert s == [s[0]] + s[1..];
        assert [s[0]] + (s[1..] + Span(t, p).0) == s + Span(t, p).0;
      }
    }
  }

  /** Appended text extends the run the part ends in, or starts a new block. */
  lemma FirstBlockAppend(u: Unicode, p: string, t: string)
    requires Decisive(u, t)
    ensures var (b, rest) := FirstBlock(u, p);
            var (c, more) := FirstBlock(u, p + t);
            if Span(p, NotDigit(u)).1 == "" then b == Block(p, "") && c.nonDigit == p + Span(t, NotDigit(u)).0
            else c == b && more == rest + t
  {
    var q := Span(p, NotDigit(u)).1;
    SpanAppend(p, t, NotDigit(u));
    if q != "" {
      SpanAppend(q, t, u.isDigit);
      assert Span(t, u.isDigit) == ("", t);
      assert q + "" == q;
    }
  }

  lemma DecisiveBlock(u: Unicode, p: string, t: string)
    requires Decisive(u, t)
    requires Span(p, NotDigit(u)).1 == ""
    ensures CompareBlock(u, FirstBlock(u, p + t).0, FirstBlock(u, p).0) == AgainstEnd(t[0])
  {
    FirstBlockAppend(u, p, t);
    SpanIsPrefix(u, t);
    DecisiveRun(u, p, Span(t, NotDigit(u)).0);
  }

  /** Appending decisive text to a part moves it to the side its first character names. */
  lemma {:induction false} AppendToPart(u: Unicode, p: string, t: string)
    requires Decisive(u, t)
    ensures PartOrder(u, p + t, p) == AgainstEnd(t[0])
    decreases |p|
  {
    PartOrderStep(u, p + t, p);
    if Span(p, NotDigit(u)).1 == "" {
      DecisiveBlock(u, p, t);
    } else {
      FirstBlockAppend(u, p, t);
      CompareBlockReflexive(u, FirstBlock(u, p).0);
      AppendToPart(u, FirstBlock(u, p).1, t);
    }
  }

  lemma SpanIsPrefix(u: Unicode, t: string)
    requires Decisive(u, t)
    ensures Decisive(u, Span(t, NotDigit(u)).0) && Span(t, NotDigit(u)).0[0] == t[0]
  {
  }

  lemma CompareBlockReflexive(u: Unicode, b: Block)
    ensures CompareBlock(u, b, b) == 0
  {
    BlockOrderIsTotal(u);
    assert BlockOrder(u)(b, b) == -BlockOrder(u)(b, b);
  }

  /** A suffix without `:` and `-` extends the last part of the version and leaves the rest alone. */
  lemma SplitAppend(v: string, t: string)
    requires Lacks(t, ':') && Lacks(t, '-')
    ensures var x, y := SplitVersion(v), SplitVersion(v + t);
            || y == Split(x.epoch, x.upstream + t, x.revision)
            || y == Split(x.epoch, x.upstream, x.revision + t)
  {
    CutEpochAppend(v, t);
    CutRevisionAppend(CutEpoch(v).1, t);
  }

  lemma CutEpochAppend(v: string, t: string)
    requires Lacks(t, ':')
    ensures CutEpoch(v + t) == (CutEpoch(v).0, CutEpoch(v).1 + t)
  {
    IndexOfAppend(v, t, ':');
    IndexOfLacks(t, ':');
    hide IndexOf;
    var colon := IndexOf(v, ':');
    if colon < |v| {
      CutAppend(v, t, colon);
    }
  }

  lemma CutAppend(v: string, t: string, i: nat)
    requires i < |v|
    ensures (v + t)[..i] == v[..i] && (v + t)[i + 1..] == v[i + 1..] + t
  {
  }

  lemma CutRevisionAppend(v: string, t: string)
    requires Lacks(t, '-')
    ensures var (upstream, revision) := CutRevision(v);
            CutRevision(v + t) == if LastIndexOf(v, '-') < 0 then (upstream + t, revision) else (upstream, revision + t)
  {
    LastIndexOfAppend(v, t, '-');
    hide LastIndexOf;
    var hyphen := LastIndexOf(v, '-');
    if hyphen >= 0 {
      CutAppend(v, t, hyphen);
    }
  }

  lemma AppendToSplit(u: Unicode, x: Split, y: Split, t: string)
    requires Decisive(u, t)
    requires || y == Split(x.epoch, x.upstream + t, x.revision)
             || y == Split(x.epoch, x.upstream, x.revision + t)
    ensures CompareSplit(u, y, x) == AgainstEnd(t[0])
  {
    AppendToPart(u, x.upstream, t);
    AppendToPart(u, x.revision, t);
    PartOrderIsTotal(u, x.upstream, x.upstream, "");
  }

  /** `v~s` sorts before `v` and `v+s` after it, wherever `v` ends. */
  lemma SuffixOrder(u: Unicode, v: string, t: string)
    requires AgreesOnAscii(u)
    requires t != "" && (t[0] == '~' || t[0] == '+') && Lacks(t, ':') && Lacks(t, '-')
    ensures VersionOrder(u)(v + t, v) == (if t[0] == '~' then -1 else 1)
  {
    hide SplitVersion, CompareSplit;
    var x, y := SplitVersion(v), SplitVersion(v + t);
    SplitAppend(v, t);
    assert Decisive(u, t);
    AppendToSplit(u, x, y, t);
  }

  // ----- Digit runs compare as numbers -----

  ghost predicate EndsInNonDigit(u: Unicode, p: string) {
    p != "" ==> !u.isDigit(p[|p| - 1])
  }

  ghost predicate StartsWithNonDigit(u: Unicode, r: string) {
    r != "" ==> !u.isDigit(r[0])
  }

  lemma DigitRun(u: Unicode, d: string, r: string)
    requires AgreesOnAscii(u) && d != "" && AsciiDigits(d) && StartsWithNonDigit(u, r)
    ensures Span(d + r, NotDigit(u)) == ("", d + r) && Span(d + r, u.isDigit) == (d, r)
  {
    assert forall i | 0 <= i < |d| :: u.isDigit(d[i]);
    assert !NotDigit(u)((d + r)[0]);
    SpanIsMaximal(d + r, u.isDigit, |d|);
  }

  /** The first block of `p` followed by a digit run and more text. */
  lemma FirstBlockBeforeDigits(u: Unicode, p: string, d: string, r: string)
    requires AgreesOnAscii(u) && d != "" && AsciiDigits(d) && StartsWithNonDigit(u, r) && EndsInNonDigit(u, p)
    ensures if Span(p, NotDigit(u)).1 == "" then FirstBlock(u, p + (d + r)) == (Block(p, d), r)
            else && FirstBlock(u, p + (d + r)) == (FirstBlock(u, p).0, FirstBlock(u, p).1 + (d + r))
                 && FirstBlock(u, p).1 != "" && EndsInNonDigit(u, FirstBlock(u, p).1)
  {
    DigitRun(u, d, r);
    SpanAppend(p, d + r, NotDigit(u));
    var q := Span(p, NotDigit(u)).1;
    if q == "" {
      assert p + "" == p;
    } else {
      SpanAppend(q, d + r, u.isDigit);
      SpanEndsWhereItFails(q, u.isDigit);
      assert q[|q| - 1] == p[|p| - 1];
    }
  }

  lemma {:induction false} SpanEndsWhereItFails(q: string, p: char -> bool)
    requires q != "" && !p(q[|q| - 1])
    ensures var rest := Span(q, p).1; rest != "" && rest[|rest| - 1] == q[|q| - 1]
  {
    if p(q[0]) { SpanEndsWhereItFails(q[1..], p); }
  }

  /** After a common prefix, digit runs of any length compare as the natural numbers they denote, and
      only equal numbers let the rest decide. */
  lemma {:induction false} DigitRunsCompareAsNumbers(u: Unicode, p: string, d: string, r: string, e: string, s: string)
    requires AgreesOnAscii(u) && EndsInNonDigit(u, p)
    requires d != "" && AsciiDigits(d) && e != "" && AsciiDigits(e)
    requires StartsWithNonDigit(u, r) && StartsWithNonDigit(u, s)
    ensures PartOrder(u, p + (d + r), p + (e + s)) == Then(Sign(Value(d) - Value(e)), PartOrder(u, r, s))
    decreases |p|
  {
    hide FirstBlock, CompareBlock, CompareDigit, Value;
    PartOrderStep(u, p + (d + r), p + (e + s));
    FirstBlockBeforeDigits(u, p, d, r);
    FirstBlockBeforeDigits(u, p, e, s);
    if Span(p, NotDigit(u)).1 == "" {
      BlocksCompareAsNumbers(u, p, d, e);
    } else {
      CompareBlockReflexive(u, FirstBlock(u, p).0);
      assert |FirstBlock(u, p).1| < |p|;
      DigitRunsCompareAsNumbers(u, FirstBlock(u, p).1, d, r, e, s);
    }
  }

  lemma BlocksCompareAsNumbers(u: Unicode, p: string, d: string, e: string)
    requires AsciiDigits(d) && AsciiDigits(e)
    ensures CompareBlock(u, Block(p, d), Block(p, e)) == Sign(Value(d) - Value(e))
  {
    CompareDigitIsNumeric(d, e);
    NonDigitRunOrderIsTotal(u, p, p, p);
    hide NonDigitRunOrder, CompareDigit, Value;
  }
}
