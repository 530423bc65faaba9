/** Facts about trimming and cutting lines. */
module Whitespace {
  import opened Text
  import opened PackageIndexes

  predicate AllSpace(s: string) {
    forall i | 0 <= i < |s| :: IsSpace(s[i])
  }

  lemma {:induction false} TrimLeftCuts(s: string)
    ensures var t := TrimLeftSpace(s);
            && |t| <= |s| && t == s[|s| - |t|..]
            && AllSpace(s[..|s| - |t|])
            && (t != "" ==> !IsSpace(t[0]))
  {
    if s != "" && IsSpace(s[0]) {
      TrimLeftCuts(s[1..]);
      var t := TrimLeftSpace(s);
      assert s[..|s| - |t|] == [s[0]] + s[1..][..|s| - 1 - |t|];
    }
  }

  lemma {:induction false} TrimRightCuts(s: string)
    ensures var t := TrimRightSpace(s);
            && |t| <= |s| && t == s[..|t|]
            && AllSpace(s[|t|..])
            && (t != "" ==> !IsSpace(t[|t| - 1]))
  {
    if s != "" && IsSpace(s[|s| - 1]) {
      TrimRightCuts(s[..|s| - 1]);
      var t := TrimRightSpace(s);
      assert s[|t|..] == s[..|s| - 1][|t|..] + [s[|s| - 1]];
    }
  }

  lemma {:induction false} TrimLeftAppend(s: string, w: string)
    requires AllSpace(w)
    ensures TrimLeftSpace(s + w) == if AllSpace(s) then "" else TrimLeftSpace(s) + w
  {
    if s == "" {
      assert s + w == w;
      AllSpaceTrims(w);
    } else {
      assert (s + w)[1..] == s[1..] + w;
      assert s == [s[0]] + s[1..];
      if IsSpace(s[0]) {
        TrimLeftAppend(s[1..], w);
      } else {
        assert !AllSpace(s);
      }
    }
  }

  lemma {:induction false} AllSpaceTrims(s: string)
    requires AllSpace(s)
    ensures TrimLeftSpace(s) == "" && TrimSpace(s) == ""
  {
    if s != "" { AllSpaceTrims(s[1..]); }
  }

  lemma {:induction false} TrimRightAppend(s: string, w: string)
    requires AllSpace(w)
    ensures TrimRightSpace(s + w) == TrimRightSpace(s)
  {
    if w == "" {
      assert s + w == s;
    } else {
      assert (s + w)[..|s + w| - 1] == s + w[..|w| - 1];
      TrimRightAppend(s, w[..|w| - 1]);
    }
  }

  /** Trailing white space does not survive trimming. */
  lemma TrimAppend(s: string, w: string)
    requires AllSpace(w)
    ensures TrimSpace(s + w) == TrimSpace(s)
  {
    TrimLeftAppend(s, w);
    if AllSpace(s) {
      AllSpaceTrims(s);
    } else {
      TrimRightAppend(TrimLeftSpace(s), w);
    }
  }

  lemma TrimmedAwayIsSpace(s: string)
    requires TrimSpace(s) == ""
    ensures AllSpace(s)
  {
    TrimLeftCuts(s);
    var t := TrimLeftSpace(s);
    TrimRightCuts(t);
    assert s == s[..|s| - |t|] + t;
  }

  lemma {:induction false} SpaceLacksColon(w: string)
    requires AllSpace(w)
    ensures IndexOf(w, ':') == |w|
  {
    if w != "" { SpaceLacksColon(w[1..]); }
  }

  // ----- Lines -----

  lemma SliceAppend(p: string, t: string, i: nat)
    requires i < |p|
    ensures (p + t)[..i] == p[..i] && (p + t)[i + 1..] == p[i + 1..] + t
  {
  }

  lemma SliceAcross(p: string, t: string, i: nat)
    requires i <= |t|
    ensures (p + t)[..|p| + i] == p + t[..i] && (p + t)[|p| + i..] == t[i..]
  {
  }

  /** A line that ends within `p` is not affected by text after `p`. */
  lemma FirstLineWithin(p: string, t: string)
    requires IndexOf(p, '\n') < |p|
    ensures FirstLine(p + t) == FirstLine(p) && AfterLine(p + t) == AfterLine(p) + t
  {
    IndexOfAppend(p, t, '\n');
    hide IndexOf;
    SliceAppend(p, t, IndexOf(p, '\n'));
  }

  lemma SingleLine(p: string)
    requires IndexOf(p, '\n') == |p|
    ensures FirstLine(p) == p && AfterLine(p) == ""
  {
  }

  /** A line that does not end within `p` continues into the text after it. */
  lemma FirstLineAcross(p: string, t: string)
    requires IndexOf(p, '\n') == |p|
    ensures FirstLine(p + t) == p + FirstLine(t) && AfterLine(p + t) == AfterLine(t)
  {
    IndexOfAppend(p, t, '\n');
    hide IndexOf;
    var i := IndexOf(t, '\n');
    SliceAcross(p, t, i);
    assert FirstLine(p + t) == p + FirstLine(t);
    if i < |t| {
      SliceAcross(p, t, i + 1);
      assert AfterLine(p + t) == (p + t)[|p| + (i + 1)..];
    }
  }

  /** White space after a line changes nothing the line says. */
  lemma ReadLineAppend(e: Entry, line: string, w: string)
    requires line != "" && AllSpace(w)
    ensures ReadLine(e, line + w, false) == ReadLine(e, line, false)
  {
    IndexOfAppend(line, w, ':');
    SpaceLacksColon(w);
    if IsField(line) {
      var i := IndexOf(line, ':');
      assert (line + w)[..i] == line[..i] && (line + w)[i + 1..] == line[i + 1..] + w;
      TrimAppend(line[i + 1..], w);
    }
  }

  lemma DropCRReads(e: Entry, line: string)
    requires line != "" && line != "\r"
    ensures DropCR(line) != ""
    ensures ReadLine(e, DropCR(line), false) == ReadLine(e, line, false)
  {
    if DropCR(line) != line {
      assert line == DropCR(line) + "\r";
      ReadLineAppend(e, DropCR(line), "\r");
    }
  }

  lemma SpaceSaysNothing(e: Entry, line: string, trim: bool)
    requires AllSpace(line)
    ensures ReadLine(e, line, trim) == e
  {
    SpaceLacksColon(line);
  }

  /** Nothing before the first blank line is blank. */
  lemma {:induction false} NoBlankBefore(s: string)
    ensures forall k | 0 <= k < BlankLine(s) && k + 1 < |s| :: !(s[k] == '\n' && s[k + 1] == '\n')
  {
    if |s| >= 2 && !(s[0] == '\n' && s[1] == '\n') {
      NoBlankBefore(s[1..]);
      forall k | 0 <= k < BlankLine(s) && k + 1 < |s| ensures !(s[k] == '\n' && s[k + 1] == '\n') {
        if k > 0 {
          assert s[k] == s[1..][k - 1] && s[k + 1] == s[1..][k];
        }
      }
    }
  }
}
