/** The parts of Go's `strings`, `bytes` and `unicode` packages the program relies on.
    Text is a sequence of code points, so it is valid UTF-8 by construction. */
module Text {

  /** Position of the first `c` in `s`, or `|s|` when there is none. */
  function IndexOf(s: string, c: char): (i: nat)
    ensures i <= |s|
    ensures i < |s| ==> s[i] == c
  {
    if s == "" || s[0] == c then 0 else 1 + IndexOf(s[1..], c)
  }

  /** Position of the last `c` in `s`, or -1 when there is none. */
  function LastIndexOf(s: string, c: char): (i: int)
    ensures -1 <= i < |s|
    ensures i >= 0 ==> s[i] == c
  {
    if s == "" then -1
    else if s[|s| - 1] == c then |s| - 1
    else LastIndexOf(s[..|s| - 1], c)
  }

  predicate Lacks(s: string, c: char) {
    forall i | 0 <= i < |s| :: s[i] != c
  }

  lemma {:induction false} IndexOfLacks(s: string, c: char)
    ensures Lacks(s[..IndexOf(s, c)], c)
    ensures IndexOf(s, c) == |s| <==> Lacks(s, c)
  {
    if s != "" && s[0] != c {
      IndexOfLacks(s[1..], c);
      var i := IndexOf(s[1..], c);
      assert s[..1 + i] == [s[0]] + s[1..][..i];
      assert s == [s[0]] + s[1..];
    }
  }

  lemma {:induction false} LastIndexOfLacks(s: string, c: char)
    ensures Lacks(s[LastIndexOf(s, c) + 1..], c)
  {
    if s != "" && s[|s| - 1] != c {
      var init, last := s[..|s| - 1], s[|s| - 1];
      LastIndexOfLacks(init, c);
      var i := LastIndexOf(s, c);
      assert i == LastIndexOf(init, c);
      hide LastIndexOf, Lacks;
      LacksSnoc(s, i + 1, c);
    }
  }

  lemma LacksSnoc(s: string, i: nat, c: char)
    requires i < |s| && Lacks(s[..|s| - 1][i..], c) && s[|s| - 1] != c
    ensures Lacks(s[i..], c)
  {
    forall k | i <= k < |s| ensures s[k] != c {
      if k < |s| - 1 {
        assert s[..|s| - 1][i..][k - i] == s[k];
      }
    }
  }

  lemma {:induction false} IndexOfAppend(s: string, t: string, c: char)
    ensures IndexOf(s + t, c) == if IndexOf(s, c) < |s| then IndexOf(s, c) else |s| + IndexOf(t, c)
  {
    if s == "" {
      assert s + t == t;
    } else {
      assert (s + t)[1..] == s[1..] + t;
      IndexOfAppend(s[1..], t, c);
    }
  }

  lemma {:induction false} LastIndexOfAppend(s: string, t: string, c: char)
    requires Lacks(t, c)
    ensures LastIndexOf(s + t, c) == LastIndexOf(s, c)
  {
    if t == "" {
      assert s + t == s;
    } else {
      assert (s + t)[..|s + t| - 1] == s + t[..|t| - 1];
      LastIndexOfAppend(s, t[..|t| - 1], c);
    }
  }

  /** Number of bytes in the UTF-8 encoding. */
  function ByteLen(s: string): nat {
    if s == "" then 0 else CharBytes(s[0]) + ByteLen(s[1..])
  }

  function CharBytes(c: char): (n: nat)
    ensures 1 <= n <= 4
  {
    if c < '\U{80}' then 1 else if c < '\U{800}' then 2 else if c < '\U{10000}' then 3 else 4
  }

  /** `unicode.IsSpace`. */
  predicate IsSpace(c: char) {
    || '\U{9}' <= c <= '\r' || c == ' ' || c == '\U{85}' || c == '\U{A0}' || c == '\U{1680}'
    || '\U{2000}' <= c <= '\U{200A}' || c == '\U{2028}' || c == '\U{2029}' || c == '\U{202F}'
    || c == '\U{205F}' || c == '\U{3000}'
  }

  /** In ASCII: tab, newline, vertical tab, form feed, carriage return and space. */
  lemma AsciiSpaces(c: char)
    requires c < '\U{80}'
    ensures IsSpace(c) <==> c in ['\t', '\n', '\U{B}', '\U{C}', '\r', ' ']
  {
  }

  function TrimLeftSpace(s: string): string {
    if s != "" && IsSpace(s[0]) then TrimLeftSpace(s[1..]) else s
  }

  function TrimRightSpace(s: string): string {
    if s != "" && IsSpace(s[|s| - 1]) then TrimRightSpace(s[..|s| - 1]) else s
  }

  function TrimSpace(s: string): string {
    TrimRightSpace(TrimLeftSpace(s))
  }

  /** `strings.TrimLeft(s, c)`. */
  function TrimLeft(s: string, c: char): (r: string)
    ensures |r| <= |s|
    ensures r != "" ==> r[0] != c
  {
    if s != "" && s[0] == c then TrimLeft(s[1..], c) else s
  }
}
