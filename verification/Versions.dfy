/** Debian version comparison, section 5.6.12 of the Debian Policy Manual. */
module Versions {
  import opened Orders
  import opened Text

  /** The character tables the comparison consults. Nothing about the order depends on which
      characters they contain; `AgreesOnAscii` holds of Unicode's own tables. */
  datatype Unicode = Unicode(isDigit: char -> bool, isLetter: char -> bool)

  ghost predicate AgreesOnAscii(u: Unicode) {
    forall c: char | c < '\U{80}' ::
      && u.isDigit(c) == ('0' <= c <= '9')
      && u.isLetter(c) == ('a' <= c <= 'z' || 'A' <= c <= 'Z')
  }

  // ----- Character runs -----

  function NotDigit(u: Unicode): char -> bool {
    (c: char) => !u.isDigit(c)
  }

  /** The longest prefix of characters satisfying `p`, and what follows it. */
  function Span(s: string, p: char -> bool): (r: (string, string))
    ensures r.0 + r.1 == s
    ensures r.1 != "" ==> !p(r.1[0])
  {
    if s == "" || !p(s[0]) then ("", s)
    else var r := Span(s[1..], p); ([s[0]] + r.0, r.1)
  }

  lemma {:induction false} SpanIsMaximal(s: string, p: char -> bool, n: nat)
    requires n <= |s|
    requires forall i | 0 <= i < n :: p(s[i])
    requires n < |s| ==> !p(s[n])
    ensures Span(s, p) == (s[..n], s[n..])
  {
    if n > 0 {
      SpanIsMaximal(s[1..], p, n - 1);
      assert s[..n] == [s[0]] + s[1..][..n - 1];
    }
  }

  method TakeWhile(value: string, p: char -> bool) returns (taken: string, rest: string)
    ensures (taken, rest) == Span(value, p)
  {
    var index := 0;
    while index < |value| && p(value[index])
      invariant index <= |value|
      invariant forall i | 0 <= i < index :: p(value[i])
    {
      index := index + 1;
    }
    SpanIsMaximal(value, p, index);
    return value[..index], value[index..];
  }

  /** A non-digit run followed by a digit run. */
  datatype Block = Block(nonDigit: string, digits: string)

  const NO_BLOCK := Block("", "")

  function FirstBlock(u: Unicode, s: string): (r: (Block, string))
    ensures r.0.nonDigit + r.0.digits + r.1 == s
    ensures s != "" ==> |r.1| < |s|
  {
    var (nonDigit, rest) := Span(s, NotDigit(u));
    var (digits, next) := Span(rest, u.isDigit);
    assert s == nonDigit + rest && rest == digits + next;
    assert nonDigit == "" && s != "" ==> digits != "" by {
      assert nonDigit == "" ==> rest == s;
      assert s != "" ==> NotDigit(u)(s[0]) == !u.isDigit(s[0]);
    }
    (Block(nonDigit, digits), next)
  }

  function Blocks(u: Unicode, s: string): seq<Block>
    decreases |s|
  {
    if s == "" then [] else [FirstBlock(u, s).0] + Blocks(u, FirstBlock(u, s).1)
  }

  // ----- Non-digit runs -----

  function NonDigitOrder(u: Unicode, c: char): int {
    if c == '~' then -1
    else if c == '\0' then 0
    else if u.isLetter(c) then c as int
    else c as int + 256
  }

  function Keys(u: Unicode, s: string): seq<int> {
    seq(|s|, i requires 0 <= i < |s| => NonDigitOrder(u, s[i]))
  }

  /** `~` sorts before the end of the run, the end before letters, letters before the rest. */
  function NonDigitRunOrder(u: Unicode, a: string, b: string): int {
    LexPadded(IntOrder(), 0, Keys(u, a), Keys(u, b))
  }

  function NextRune(value: string): (char, nat) {
    if value == "" then ('\0', 0) else (value[0], 1)
  }

  method CompareNonDigit(u: Unicode, a: string, b: string) returns (r: int)
    ensures r == NonDigitRunOrder(u, a, b)
  {
    var left, right := a, b;
    while left != "" || right != ""
      invariant NonDigitRunOrder(u, left, right) == NonDigitRunOrder(u, a, b)
      decreases |left| + |right|
    {
      assert IntOrder()(Head(Keys(u, left), 0), Head(Keys(u, right), 0))
          == Sign(Head(Keys(u, left), 0) - Head(Keys(u, right), 0));
      var (leftRune, leftSize) := NextRune(left);
      var (rightRune, rightSize) := NextRune(right);
      var leftOrder := NonDigitOrder(u, leftRune);
      var rightOrder := NonDigitOrder(u, rightRune);
      assert Head(Keys(u, left), 0) == leftOrder && Head(Keys(u, right), 0) == rightOrder;
      assert Tail(Keys(u, left)) == Keys(u, left[leftSize..]);
      assert Tail(Keys(u, right)) == Keys(u, right[rightSize..]);
      if leftOrder != rightOrder {
        return if leftOrder < rightOrder then -1 else 1;
      }
      left := left[leftSize..];
      right := right[rightSize..];
    }
    return 0;
  }

  // ----- Digit runs -----

  /** Digit runs of any length, compared without converting them to machine integers. */
  function CompareDigit(a: string, b: string): int {
    var left, right := TrimLeft(a, '0'), TrimLeft(b, '0');
    if ByteLen(left) != ByteLen(right) then
      if ByteLen(left) < ByteLen(right) then -1 else 1
    else
      StringOrder(left, right)
  }

  predicate AsciiDigits(s: string) {
    forall i | 0 <= i < |s| :: '0' <= s[i] <= '9'
  }

  function Pow10(n: nat): (p: nat)
    ensures p >= 1
  {
    if n == 0 then 1 else 10 * Pow10(n - 1)
  }

  /** The natural number a decimal digit run denotes. */
  function Value(s: string): nat
    requires AsciiDigits(s)
  {
    if s == "" then 0
    else DigitValue(s[0]) * Pow10(|s| - 1) + Value(s[1..])
  }

  function DigitValue(c: char): (d: nat)
    requires '0' <= c <= '9'
    ensures d <= 9
  {
    c as int - '0' as int
  }

  lemma {:induction false} ValueBounds(s: string)
    requires AsciiDigits(s)
    ensures Value(s) < Pow10(|s|)
    ensures s != "" && s[0] != '0' ==> Pow10(|s| - 1) <= Value(s)
  {
    if s != "" {
      ValueBounds(s[1..]);
      DigitTimes(DigitValue(s[0]), Pow10(|s| - 1));
    }
  }

  lemma DigitTimes(d: nat, p: nat)
    requires d <= 9
    ensures d * p <= 9 * p
    ensures d >= 1 ==> p <= d * p
  {
  }

  lemma {:induction false} Pow10Grows(m: nat, n: nat)
    requires m <= n
    ensures Pow10(m) <= Pow10(n)
    decreases n - m
  {
    if m < n { Pow10Grows(m, n - 1); }
  }

  lemma {:induction false} TrimKeepsValue(s: string)
    requires AsciiDigits(s)
    ensures AsciiDigits(TrimLeft(s, '0')) && Value(TrimLeft(s, '0')) == Value(s)
  {
    if s != "" && s[0] == '0' { TrimKeepsValue(s[1..]); }
  }

  lemma {:induction false} AsciiByteLen(s: string)
    requires forall i | 0 <= i < |s| :: s[i] < '\U{80}'
    ensures ByteLen(s) == |s|
  {
    if s != "" { AsciiByteLen(s[1..]); }
  }

  lemma {:induction false} SameLengthOrder(a: string, b: string)
    requires AsciiDigits(a) && AsciiDigits(b) && |a| == |b|
    ensures StringOrder(a, b) == Sign(Value(a) - Value(b))
  {
    if a != "" {
      SameLengthOrder(a[1..], b[1..]);
      StringOrderStep(a, b);
      ValueBounds(a[1..]);
      ValueBounds(b[1..]);
      FirstDigitDecides(DigitValue(a[0]), DigitValue(b[0]), Pow10(|a| - 1), Value(a[1..]), Value(b[1..]));
    }
  }

  lemma FirstDigitDecides(d: nat, e: nat, p: nat, x: nat, y: nat)
    requires x < p && y < p
    ensures Sign((d * p + x) - (e * p + y)) == Then(Sign(d - e), Sign(x - y))
  {
    if d < e { LargerDigit(d, e, p); }
    if e < d { LargerDigit(e, d, p); }
  }

  lemma {:induction false} LargerDigit(d: nat, e: nat, p: nat)
    requires d < e
    ensures d * p + p <= e * p
  {
    assert (e - 1) * p + p == e * p;
    if d < e - 1 { LargerDigit(d, e - 1, p); }
  }

  /** Digit runs are ordered by the unbounded natural numbers they denote. */
  lemma CompareDigitIsNumeric(a: string, b: string)
    requires AsciiDigits(a) && AsciiDigits(b)
    ensures CompareDigit(a, b) == Sign(Value(a) - Value(b))
  {
    var l, r := TrimLeft(a, '0'), TrimLeft(b, '0');
    TrimKeepsValue(a);
    TrimKeepsValue(b);
    AsciiByteLen(l);
    AsciiByteLen(r);
    ValueBounds(l);
    ValueBounds(r);
    hide Value, Pow10, ByteLen, StringOrder, TrimLeft;
    if |l| == |r| {
      SameLengthOrder(l, r);
    } else if |l| < |r| {
      Pow10Grows(|l|, |r| - 1);
    } else {
      Pow10Grows(|r|, |l| - 1);
    }
  }

  // ----- Version parts -----

  function BlockOrder(u: Unicode): (Block, Block) -> int {
    (a: Block, b: Block) => CompareBlock(u, a, b)
  }

  function CompareBlock(u: Unicode, a: Block, b: Block): int {
    Then(NonDigitRunOrder(u, a.nonDigit, b.nonDigit), CompareDigit(a.digits, b.digits))
  }

  /** The reference order: the block sequences, continued with empty blocks, lexicographically. */
  function PartOrder(u: Unicode, a: string, b: string): int {
    LexPadded(BlockOrder(u), NO_BLOCK, Blocks(u, a), Blocks(u, b))
  }

  lemma PartOrderStep(u: Unicode, a: string, b: string)
    requires a != "" || b != ""
    ensures PartOrder(u, a, b)
         == Then(CompareBlock(u, FirstBlock(u, a).0, FirstBlock(u, b).0),
                 PartOrder(u, FirstBlock(u, a).1, FirstBlock(u, b).1))
  {
    assert FirstBlock(u, "") == (NO_BLOCK, "");
    assert Head(Blocks(u, a), NO_BLOCK) == FirstBlock(u, a).0 && Tail(Blocks(u, a)) == Blocks(u, FirstBlock(u, a).1);
    assert Head(Blocks(u, b), NO_BLOCK) == FirstBlock(u, b).0 && Tail(Blocks(u, b)) == Blocks(u, FirstBlock(u, b).1);
  }

  method CompareVersionPart(u: Unicode, a: string, b: string) returns (r: int)
    ensures r == PartOrder(u, a, b)
  {
    var left, right := a, b;
    while left != "" || right != ""
      invariant PartOrder(u, left, right) == PartOrder(u, a, b)
      decreases |left| + |right|
    {
      PartOrderStep(u, left, right);
      var leftNonDigit, leftRest := TakeWhile(left, NotDigit(u));
      var rightNonDigit, rightRest := TakeWhile(right, NotDigit(u));
      var leftDigits, nextLeft := TakeWhile(leftRest, u.isDigit);
      var rightDigits, nextRight := TakeWhile(rightRest, u.isDigit);
      assert FirstBlock(u, left) == (Block(leftNonDigit, leftDigits), nextLeft);
      assert FirstBlock(u, right) == (Block(rightNonDigit, rightDigits), nextRight);
      var cmp := CompareNonDigit(u, leftNonDigit, rightNonDigit);
      if cmp != 0 {
        return cmp;
      }
      cmp := CompareDigit(leftDigits, rightDigits);
      if cmp != 0 {
        return cmp;
      }
      left := nextLeft;
      right := nextRight;
    }
    return 0;
  }

  // ----- Whole versions -----

  datatype Option<T> = None | Some(value: T)

  const MAX_INT := 0x7FFF_FFFF_FFFF_FFFF

  /** `strconv.Atoi` on a 64-bit platform: an optional sign, then at least one digit, in range. */
  function Atoi(s: string): Option<int> {
    var signed := s != "" && (s[0] == '-' || s[0] == '+');
    var digits := if signed then s[1..] else s;
    if digits == "" || !AsciiDigits(digits) then None
    else
      var v: int := Value(digits);
      var n := if signed && s[0] == '-' then -v else v;
      if -MAX_INT - 1 <= n <= MAX_INT then Some(n) else None
  }

  datatype Split = Split(epoch: int, upstream: string, revision: string)

  function SplitVersion(version: string): Split {
    var (epoch, rest) := CutEpoch(version);
    var (upstream, revision) := CutRevision(rest);
    Split(epoch, upstream, revision)
  }

  /** Everything up to the first colon is cut off; it counts only if it is a machine integer. */
  function CutEpoch(version: string): (int, string) {
    var colon := IndexOf(version, ':');
    if colon == |version| then (0, version)
    else
      var epoch := match Atoi(version[..colon]) case Some(n) => n case None => 0;
      (epoch, version[colon + 1..])
  }

  function CutRevision(version: string): (string, string) {
    var hyphen := LastIndexOf(version, '-');
    if hyphen < 0 then (version, "0") else (version[..hyphen], version[hyphen + 1..])
  }

  function VersionOrder(u: Unicode): (string, string) -> int {
    (a: string, b: string) => CompareSplit(u, SplitVersion(a), SplitVersion(b))
  }

  function CompareSplit(u: Unicode, a: Split, b: Split): int {
    Then(Sign(a.epoch - b.epoch), Then(PartOrder(u, a.upstream, b.upstream), PartOrder(u, a.revision, b.revision)))
  }

  method CompareVersions(u: Unicode, left: string, right: string) returns (r: int)
    ensures r == VersionOrder(u)(left, right)
  {
    var l, m := SplitVersion(left), SplitVersion(right);
    assert VersionOrder(u)(left, right) == CompareSplit(u, l, m);
    r := CompareSplits(u, l, m);
  }

  method CompareSplits(u: Unicode, l: Split, m: Split) returns (r: int)
    ensures r == CompareSplit(u, l, m)
  {
    if l.epoch != m.epoch {
      return if l.epoch < m.epoch then -1 else 1;
    }
    var cmp := CompareVersionPart(u, l.upstream, m.upstream);
    if cmp != 0 {
      return cmp;
    }
    r := CompareVersionPart(u, l.revision, m.revision);
  }

  // ----- The order laws -----

  lemma CompareDigitIsTotal(a: string, b: string, c: string)
    ensures -1 <= CompareDigit(a, b) <= 1
    ensures CompareDigit(a, b) == -CompareDigit(b, a)
    ensures CompareDigit(a, b) <= 0 && CompareDigit(b, c) <= 0 ==> CompareDigit(a, c) <= 0
    ensures CompareDigit(a, b) == 0 <==> TrimLeft(a, '0') == TrimLeft(b, '0')
  {
    StringOrderIsTotal(TrimLeft(a, '0'), TrimLeft(b, '0'), TrimLeft(c, '0'));
  }

  lemma NonDigitRunOrderIsTotal(u: Unicode, a: string, b: string, c: string)
    ensures -1 <= NonDigitRunOrder(u, a, b) <= 1
    ensures NonDigitRunOrder(u, a, b) == -NonDigitRunOrder(u, b, a)
    ensures NonDigitRunOrder(u, a, b) <= 0 && NonDigitRunOrder(u, b, c) <= 0 ==> NonDigitRunOrder(u, a, c) <= 0
  {
    IntOrderIsTotal();
    LexPaddedAntisymmetric(IntOrder(), 0, Keys(u, a), Keys(u, b));
    if NonDigitRunOrder(u, a, b) <= 0 && NonDigitRunOrder(u, b, c) <= 0 {
      LexPaddedTransitive(IntOrder(), 0, Keys(u, a), Keys(u, b), Keys(u, c));
    }
  }

  lemma BlockOrderIsTotal(u: Unicode)
    ensures TotalPreorder(BlockOrder(u))
  {
    var cmp := BlockOrder(u);
    forall x, y ensures -1 <= cmp(x, y) <= 1 && cmp(x, y) == -cmp(y, x) {
      NonDigitRunOrderIsTotal(u, x.nonDigit, y.nonDigit, "");
      CompareDigitIsTotal(x.digits, y.digits, "");
    }
    forall x, y, z | cmp(x, y) <= 0 && cmp(y, z) <= 0 ensures cmp(x, z) <= 0 {
      NonDigitRunOrderIsTotal(u, x.nonDigit, y.nonDigit, z.nonDigit);
      NonDigitRunOrderIsTotal(u, y.nonDigit, z.nonDigit, x.nonDigit);
      NonDigitRunOrderIsTotal(u, z.nonDigit, x.nonDigit, y.nonDigit);
      CompareDigitIsTotal(x.digits, y.digits, z.digits);
    }
  }

  lemma PartOrderIsTotal(u: Unicode, a: string, b: string, c: string)
    ensures -1 <= PartOrder(u, a, b) <= 1
    ensures PartOrder(u, a, b) == -PartOrder(u, b, a)
    ensures PartOrder(u, a, b) <= 0 && PartOrder(u, b, c) <= 0 ==> PartOrder(u, a, c) <= 0
  {
    BlockOrderIsTotal(u);
    LexPaddedAntisymmetric(BlockOrder(u), NO_BLOCK, Blocks(u, a), Blocks(u, b));
    if PartOrder(u, a, b) <= 0 && PartOrder(u, b, c) <= 0 {
      LexPaddedTransitive(BlockOrder(u), NO_BLOCK, Blocks(u, a), Blocks(u, b), Blocks(u, c));
    }
  }

  lemma CompareSplitIsTotal(u: Unicode, a: Split, b: Split, c: Split)
    ensures -1 <= CompareSplit(u, a, b) <= 1
    ensures CompareSplit(u, a, b) == -CompareSplit(u, b, a)
    ensures CompareSplit(u, a, b) <= 0 && CompareSplit(u, b, c) <= 0 ==> CompareSplit(u, a, c) <= 0
  {
    PartOrderIsTotal(u, a.upstream, b.upstream, c.upstream);
    PartOrderIsTotal(u, b.upstream, c.upstream, a.upstream);
    PartOrderIsTotal(u, c.upstream, a.upstream, b.upstream);
    PartOrderIsTotal(u, a.revision, b.revision, c.revision);
    hide PartOrder;
  }

  /** `CompareVersions` is a total preorder on all strings, whatever the character tables. */
  lemma VersionOrderIsTotal(u: Unicode)
    ensures TotalPreorder(VersionOrder(u))
  {
    var cmp := VersionOrder(u);
    forall x, y ensures -1 <= cmp(x, y) <= 1 && cmp(x, y) == -cmp(y, x) {
      CompareSplitIsTotal(u, SplitVersion(x), SplitVersion(y), SplitVersion(y));
    }
    forall x, y, z | cmp(x, y) <= 0 && cmp(y, z) <= 0 ensures cmp(x, z) <= 0 {
      CompareSplitIsTotal(u, SplitVersion(x), SplitVersion(y), SplitVersion(z));
    }
  }
}
