/** Stanzas as archives and dpkg write them, line by line, and how their lines are read. */
module Deb822Texts {
  import opened Text
  import opened Whitespace
  import opened PackageIndexes
  import opened EarlyExits
  import opened ParserLaws

  // ----- Writing -----

  /** A field, with any white space around its value, or any line that is no field: a continuation, a
      line without colon, or an empty line. */
  datatype Line = FieldLine(key: string, before: string, value: string, after: string) | OtherLine(text: string)

  function LineText(l: Line): string {
    match l
    case FieldLine(key, before, value, after) => key + (":" + (before + (value + after)))
    case OtherLine(text) => text
  }

  function LinesText(ls: seq<Line>): string {
    if ls == [] then "" else if |ls| == 1 then LineText(ls[0]) else LineText(ls[0]) + ("\n" + LinesText(ls[1..]))
  }

  /** White space within a line. */
  predicate IsGap(s: string) {
    AllSpace(s) && Lacks(s, '\n')
  }

  predicate StartsSolid(s: string) {
    s != "" && !IsSpace(s[0])
  }

  predicate EndsSolid(s: string) {
    s != "" && !IsSpace(s[|s| - 1])
  }

  /** One line without surrounding white space; colons are welcome. */
  predicate PlainValue(s: string) {
    Lacks(s, '\n') && (s != "" ==> StartsSolid(s) && EndsSolid(s))
  }

  predicate PlainKey(s: string) {
    StartsSolid(s) && EndsSolid(s) && Lacks(s, ':') && Lacks(s, '\n')
  }

  predicate PlainLine(l: Line) {
    match l
    case FieldLine(key, before, value, after) => PlainKey(key) && IsGap(before) && PlainValue(value) && IsGap(after)
    case OtherLine(text) => Lacks(text, '\n') && text != "\r" && (text == "" || IsContinuation(text) || Lacks(text, ':'))
  }

  // ----- One line -----

  lemma {:induction false} TrimPrepend(w: string, s: string)
    requires AllSpace(w)
    ensures TrimLeftSpace(w + s) == TrimLeftSpace(s)
  {
    if w == "" {
      assert w + s == s;
    } else {
      assert (w + s)[1..] == w[1..] + s;
      TrimPrepend(w[1..], s);
    }
  }

  lemma TrimAround(before: string, value: string, after: string)
    requires AllSpace(before) && AllSpace(after) && (value != "" ==> StartsSolid(value) && EndsSolid(value))
    ensures TrimSpace(before + (value + after)) == value
  {
    TrimPrepend(before, value + after);
    TrimAppend(value, after);
    assert TrimLeftSpace(value) == value && TrimRightSpace(value) == value;
    hide TrimLeftSpace, TrimRightSpace;
  }

  lemma FieldCut(key: string, rest: string)
    requires Lacks(key, ':')
    ensures var line := key + (":" + rest);
            IndexOf(line, ':') == |key| && line[..|key|] == key && line[|key| + 1..] == rest
  {
    var tail := ":" + rest;
    IndexOfLacks(key, ':');
    IndexOfAppend(key, tail, ':');
    assert IndexOf(tail, ':') == 0;
    hide IndexOf;
    assert (key + tail)[|key| + 1..] == rest;
  }

  lemma PlainKeyIsTrimmed(key: string)
    requires PlainKey(key)
    ensures TrimSpace(key) == key && key[0] != ' ' && key[0] != '\t'
  {
    TrimAround("", key, "");
    assert "" + (key + "") == key;
    assert IsSpace(' ') && IsSpace('\t');
    hide IsSpace;
  }

  /** A field line is cut at its first colon, and its value loses the white space around it. */
  lemma FieldParts(l: Line)
    requires l.FieldLine? && PlainLine(l)
    ensures var line := LineText(l);
            && IsField(line) && !IsContinuation(line)
            && RawKey(line) == l.key && FieldKey(line, true) == l.key && FieldKey(line, false) == l.key
            && FieldValue(line) == l.value
  {
    FieldCut(l.key, l.before + (l.value + l.after));
    PlainKeyIsTrimmed(l.key);
    TrimAround(l.before, l.value, l.after);
    var line := LineText(l);
    assert line[0] == l.key[0];
    hide IndexOf, TrimSpace, PlainKey, PlainValue, IsGap;
  }

  lemma OtherIsNoField(l: Line)
    requires l.OtherLine? && PlainLine(l)
    ensures !IsField(LineText(l))
  {
    IndexOfLacks(l.text, ':');
  }

  lemma LineIsOneLine(l: Line)
    requires PlainLine(l)
    ensures Lacks(LineText(l), '\n') && LineText(l) != "\r" && (l.FieldLine? ==> LineText(l) != "")
  {
  }

  /** A line followed by nothing or by more lines. */
  lemma LineLines(l: Line, rest: string)
    requires PlainLine(l)
    ensures var line := LineText(l);
            && FirstLine(line) == line && AfterLine(line) == ""
            && FirstLine(line + ("\n" + rest)) == line && AfterLine(line + ("\n" + rest)) == rest
  {
    LineIsOneLine(l);
    hide LineText, PlainLine;
    var line := LineText(l);
    IndexOfLacks(line, '\n');
    SingleLine(line);
    FirstLineAcross(line, "\n" + rest);
    NewlineFirst(rest);
    hide FirstLine, AfterLine;
    assert line + "" == line;
  }

  lemma NewlineFirst(s: string)
    ensures FirstLine("\n" + s) == "" && AfterLine("\n" + s) == s
  {
  }

  /** What reading one line does to an entry. */
  function Step(e: Entry, l: Line): Entry {
    if l.FieldLine? then SetField(e, l.key, l.value) else e
  }

  lemma LineIsRead(e: Entry, l: Line, trim: bool)
    requires PlainLine(l)
    ensures ReadLine(e, LineText(l), trim) == Step(e, l)
  {
    if l.FieldLine? { FieldParts(l); } else { OtherIsNoField(l); }
    hide LineText, PlainLine, FieldKey, FieldValue, IsField;
  }

  // ----- Several lines -----

  function Folded(ls: seq<Line>, e: Entry): Entry {
    if ls == [] then e else Folded(ls[1..], Step(e, ls[0]))
  }

  ghost predicate AllPlain(ls: seq<Line>) {
    forall l | l in ls :: PlainLine(l)
  }

  lemma {:induction false} LinesAreRead(ls: seq<Line>, e: Entry, trim: bool)
    requires AllPlain(ls)
    ensures AllFields(LinesText(ls), e, trim) == Folded(ls, e)
  {
    if ls != [] {
      var l := ls[0];
      LineIsRead(e, l, trim);
      LineLines(l, LinesText(ls[1..]));
      hide LineText, PlainLine, ReadLine, FirstLine, AfterLine, Step;
      assert AllFields("", Step(e, l), trim) == Step(e, l);
      LinesAreRead(ls[1..], Step(e, l), trim);
      if |ls| == 1 {
        assert Folded(ls[1..], Step(e, l)) == Step(e, l);
        assert LineText(l) == "" ==> AllFields("", e, trim) == e;
        EmptyLineSaysNothing(e, l);
      }
    }
  }

  lemma EmptyLineSaysNothing(e: Entry, l: Line)
    requires PlainLine(l)
    ensures LineText(l) == "" ==> Step(e, l) == e
  {
    LineIsOneLine(l);
  }

  // ----- Counting and finding fields -----

  function CountOf(ls: seq<Line>, key: string): nat {
    if ls == [] then 0 else (if ls[0].FieldLine? && ls[0].key == key then 1 else 0) + CountOf(ls[1..], key)
  }

  /** The value of the first field with this key, or nothing. */
  function ValueOf(ls: seq<Line>, key: string): string {
    if ls == [] then "" else if ls[0].FieldLine? && ls[0].key == key then ls[0].value else ValueOf(ls[1..], key)
  }

  lemma {:induction false} NoValue(ls: seq<Line>, key: string)
    requires CountOf(ls, key) == 0
    ensures ValueOf(ls, key) == ""
  {
    if ls != [] { NoValue(ls[1..], key); }
  }

  predicate IndexFieldsOnce(ls: seq<Line>) {
    CountOf(ls, "Package") <= 1 && CountOf(ls, "Architecture") <= 1 && CountOf(ls, "Version") <= 1
  }

  lemma {:induction false} FoldedIs(ls: seq<Line>, e: Entry)
    requires IndexFieldsOnce(ls)
    ensures var r := Folded(ls, e);
            && r.name == (if CountOf(ls, "Package") == 0 then e.name else ValueOf(ls, "Package"))
            && r.architecture == (if CountOf(ls, "Architecture") == 0 then e.architecture else ValueOf(ls, "Architecture"))
            && r.version == (if CountOf(ls, "Version") == 0 then e.version else ValueOf(ls, "Version"))
  {
    if ls != [] {
      FoldedIs(ls[1..], Step(e, ls[0]));
    }
  }

  /** Reading a stanza yields the values of its fields. */
  lemma StanzaIsRead(ls: seq<Line>, trim: bool)
    requires AllPlain(ls) && IndexFieldsOnce(ls)
    ensures AllFields(LinesText(ls), BLANK, trim)
         == Entry(ValueOf(ls, "Package"), ValueOf(ls, "Architecture"), ValueOf(ls, "Version"))
  {
    LinesAreRead(ls, BLANK, trim);
    FoldedIs(ls, BLANK);
    hide AllFields, Folded, LinesText, AllPlain;
    if CountOf(ls, "Package") == 0 { NoValue(ls, "Package"); }
    if CountOf(ls, "Architecture") == 0 { NoValue(ls, "Architecture"); }
    if CountOf(ls, "Version") == 0 { NoValue(ls, "Version"); }
  }

  lemma {:induction false} LinesAreCounted(ls: seq<Line>, key: string)
    requires AllPlain(ls)
    ensures Occurrences(LinesText(ls), key) == CountOf(ls, key)
  {
    if ls != [] {
      var l := ls[0];
      LineLines(l, LinesText(ls[1..]));
      if l.FieldLine? { FieldParts(l); } else { OtherIsNoField(l); }
      LineIsOneLine(l);
      hide LineText, PlainLine, FirstLine, AfterLine, FieldKey, IsField;
      LinesAreCounted(ls[1..], key);
      assert Occurrences("", key) == 0;
    }
  }

  lemma {:induction false} LinesAreTidy(ls: seq<Line>)
    requires AllPlain(ls)
    ensures TidyLines(LinesText(ls))
  {
    if ls != [] {
      var l := ls[0];
      LineLines(l, LinesText(ls[1..]));
      if l.FieldLine? { FieldParts(l); } else { OtherIsNoField(l); }
      LineIsOneLine(l);
      hide LineText, PlainLine, FirstLine, AfterLine, FieldKey, IsField, RawKey;
      LinesAreTidy(ls[1..]);
      assert TidyLines("");
    }
  }

  /** The scanner's limit: a line of 4 MiB is too long, one byte less is not. */
  lemma {:induction false} LongLinesAre(ls: seq<Line>)
    requires AllPlain(ls)
    ensures HasLongLine(LinesText(ls)) <==> exists l | l in ls :: ByteLen(LineText(l)) >= 4_194_304
  {
    assert !HasLongLine("") && ByteLen("") == 0;
    if ls != [] {
      var l := ls[0];
      LineLines(l, LinesText(ls[1..]));
      hide LineText, PlainLine, FirstLine, AfterLine, ByteLen;
      LongLinesAre(ls[1..]);
      assert forall m :: m in ls <==> m == l || m in ls[1..];
    }
  }

  // ----- Stanzas -----

  /** No line is empty, and the first one starts with no white space. */
  ghost predicate PlainStanza(ls: seq<Line>) {
    && ls != [] && AllPlain(ls) && (forall l | l in ls :: LineText(l) != "")
    && StartsSolid(LineText(ls[0]))
  }

  lemma {:induction false} LinesAreSolid(ls: seq<Line>)
    requires ls != [] && AllPlain(ls) && forall l | l in ls :: LineText(l) != ""
    ensures Solid(LinesText(ls)) && LinesText(ls)[0] == LineText(ls[0])[0]
  {
    LineIsOneLine(ls[0]);
    hide LineText, PlainLine;
    if |ls| > 1 {
      LinesAreSolid(ls[1..]);
      SolidAfterLine(LineText(ls[0]), LinesText(ls[1..]));
    } else {
      SolidLine(LineText(ls[0]));
    }
  }

  lemma SolidLine(line: string)
    requires line != "" && Lacks(line, '\n')
    ensures Solid(line)
  {
  }

  lemma SolidAfterLine(line: string, rest: string)
    requires line != "" && Lacks(line, '\n') && Solid(rest)
    ensures Solid(line + ("\n" + rest)) && (line + ("\n" + rest))[0] == line[0]
  {
    var p := line + ("\n" + rest);
    assert p[|p| - 1] == rest[|rest| - 1];
    forall k | 0 <= k && k + 1 < |p| ensures !(p[k] == '\n' && p[k + 1] == '\n') {
      if k > |line| {
        assert p[k] == rest[k - |line| - 1] && p[k + 1] == rest[k - |line|];
      }
    }
  }

  lemma StanzaIsSolid(ls: seq<Line>)
    requires PlainStanza(ls)
    ensures Solid(LinesText(ls)) && StartsSolid(LinesText(ls)) && TidyLines(LinesText(ls))
  {
    LinesAreSolid(ls);
    LinesAreTidy(ls);
    hide LinesText, TidyLines, LineText, AllPlain;
  }

  // ----- Files -----

  /** Stanzas separated by blank lines. */
  function Written(stanzas: seq<seq<Line>>): string {
    if stanzas == [] then ""
    else if |stanzas| == 1 then LinesText(stanzas[0])
    else LinesText(stanzas[0]) + ("\n\n" + Written(stanzas[1..]))
  }

  /** White space that ends the file is no part of its last stanza. */
  ghost predicate PlainFile(stanzas: seq<seq<Line>>) {
    && (forall ls | ls in stanzas :: PlainStanza(ls))
    && (stanzas != [] ==> EndsSolid(LinesText(stanzas[|stanzas| - 1])))
  }

  /** Text that trimming leaves alone. */
  predicate Trimmed(s: string) {
    StartsSolid(s) && EndsSolid(s)
  }

  lemma TrimmedStays(text: string, tail: string)
    requires Trimmed(text) && AllSpace(tail)
    ensures TrimSpace(text + tail) == text && text != ""
  {
    TrimAround("", text, tail);
    assert "" + (text + tail) == text + tail;
  }

  lemma TrimmedJoins(s: string, t: string)
    requires StartsSolid(s) && EndsSolid(t)
    ensures Trimmed(s + ("\n\n" + t))
  {
    var all := s + ("\n\n" + t);
    assert all[0] == s[0] && all[|all| - 1] == t[|t| - 1];
  }

  lemma {:induction false} WrittenIsTrimmed(stanzas: seq<seq<Line>>)
    requires PlainFile(stanzas) && stanzas != []
    ensures Trimmed(Written(stanzas))
  {
    hide LinesText, PlainStanza, Solid, TidyLines, StartsSolid, EndsSolid, Trimmed;
    StanzaIsSolid(stanzas[0]);
    if |stanzas| == 1 {
      TrimmedWhen(Written(stanzas));
    } else {
      WrittenIsTrimmed(stanzas[1..]);
      TrimmedMeans(Written(stanzas[1..]));
      TrimmedJoins(LinesText(stanzas[0]), Written(stanzas[1..]));
    }
  }

  lemma TrimmedWhen(s: string)
    requires StartsSolid(s) && EndsSolid(s)
    ensures Trimmed(s)
  {
  }

  lemma TrimmedMeans(s: string)
    requires Trimmed(s)
    ensures StartsSolid(s) && EndsSolid(s)
  {
  }

  lemma BlankLineIs(s: string, t: string)
    requires Solid(s)
    ensures BlankLine(s) == |s|
    ensures BlankLine(s + ("\n\n" + t)) == |s|
  {
    var all := s + ("\n\n" + t);
    NoBlankBefore(s);
    NoBlankBefore(all);
    assert all[|s|] == '\n' && all[|s| + 1] == '\n';
  }
}
