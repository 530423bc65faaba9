/** What both parsers make of an index file as archives write it. */
module IndexTexts {
  import opened Text
  import opened Packages
  import opened Versions
  import opened Whitespace
  import opened PackageIndexes
  import opened EarlyExits
  import opened ParserLaws
  import opened Deb822Texts
  import Sorting

  // ----- The expected packages -----

  /** An index stanza names each of the three fields at most once. */
  ghost predicate IndexStanza(ls: seq<Line>) {
    PlainStanza(ls) && IndexFieldsOnce(ls)
  }

  ghost predicate IndexFile(stanzas: seq<seq<Line>>) {
    PlainFile(stanzas) && forall ls | ls in stanzas :: IndexStanza(ls)
  }

  /** The package a reader of the index expects from a stanza: none without name or version, and
      none that the filter does not allow. */
  function Expected(ctx: Context, ls: seq<Line>): seq<AvailablePackage> {
    var name, version := ValueOf(ls, "Package"), ValueOf(ls, "Version");
    var arch := if ValueOf(ls, "Architecture") == "" then "all" else ValueOf(ls, "Architecture");
    if name == "" || version == "" then []
    else if ctx.filter.Some? && !(name in ctx.filter.value && arch in ctx.filter.value[name]) then []
    else [AvailablePackage(name, arch, version, ctx.security, ctx.priority, ctx.backports)]
  }

  function ExpectedAll(ctx: Context, stanzas: seq<seq<Line>>): seq<AvailablePackage> {
    if stanzas == [] then [] else Expected(ctx, stanzas[0]) + ExpectedAll(ctx, stanzas[1..])
  }

  lemma StanzaIsExpected(ctx: Context, ls: seq<Line>)
    requires IndexStanza(ls)
    ensures Emitted(ctx, AllFields(LinesText(ls), BLANK, false)) == Expected(ctx, ls)
    ensures WellFormedStanza(LinesText(ls)) && Solid(LinesText(ls)) && StartsSolid(LinesText(ls))
  {
    StanzaIsRead(ls, false);
    StanzaIsSolid(ls);
    StanzaReadsAlike(ls);
    EmittedIs(ctx, ls);
    hide LinesText, ReadsAlike, Solid, StartsSolid, AllFields, Emitted, Expected, PlainStanza, IndexFieldsOnce, PlainKeys;
  }

  lemma StanzaReadsAlike(ls: seq<Line>)
    requires AllPlain(ls) && IndexFieldsOnce(ls) && PlainKeys(LinesText(ls))
    ensures ReadsAlike(LinesText(ls))
  {
    hide LinesText, ReadsAlike, AllPlain, Occurrences, PlainKeys;
    LinesAreCounted(ls, "Package");
    LinesAreCounted(ls, "Architecture");
    LinesAreCounted(ls, "Version");
    UniqueFieldsReadAlike(LinesText(ls));
  }

  lemma EmittedIs(ctx: Context, ls: seq<Line>)
    ensures Emitted(ctx, Entry(ValueOf(ls, "Package"), ValueOf(ls, "Architecture"), ValueOf(ls, "Version"))) == Expected(ctx, ls)
  {
    hide ValueOf;
  }

  // ----- Reading back -----

  lemma {:induction false} ScannerReadsWritten(ctx: Context, stanzas: seq<seq<Line>>)
    requires forall ls | ls in stanzas :: IndexStanza(ls)
    ensures Stream(ctx, Written(stanzas), BLANK) == ExpectedAll(ctx, stanzas)
  {
    if stanzas == [] {
      BlankIsEmpty(ctx);
    } else {
      var ls := stanzas[0];
      StanzaIsExpected(ctx, ls);
      hide LinesText, Stream, Emitted, Expected, IndexStanza, Solid, CleanLines, ReadsAlike, AllFields;
      if |stanzas| == 1 {
        StreamStanza(ctx, LinesText(ls), "", BLANK);
        assert LinesText(ls) + "" == LinesText(ls);
        assert stanzas[1..] == [];
      } else {
        ScannerReadsWritten(ctx, stanzas[1..]);
        var t := "\n\n" + Written(stanzas[1..]);
        StreamStanza(ctx, LinesText(ls), t, BLANK);
        assert t[2..] == Written(stanzas[1..]);
      }
    }
  }

  lemma {:induction false} WrittenParagraphs(stanzas: seq<seq<Line>>)
    requires forall ls | ls in stanzas :: IndexStanza(ls)
    ensures forall p | p in Paragraphs(Written(stanzas)) :: WellFormedStanza(p)
    ensures stanzas != [] ==> StartsSolid(Written(stanzas))
  {
    hide WellFormedStanza, Paragraphs, IndexStanza, LinesText, Solid, StartsSolid;
    if stanzas == [] {
      NoParagraphs();
    } else {
      var ls := stanzas[0];
      StanzaIsExpected(UNFILTERED, ls);
      if |stanzas| == 1 {
        OneParagraph(LinesText(ls));
      } else {
        WrittenParagraphs(stanzas[1..]);
        WrittenStep(LinesText(ls), Written(stanzas[1..]));
      }
    }
  }

  lemma NoParagraphs()
    ensures Paragraphs("") == []
  {
  }

  lemma OneParagraph(s: string)
    requires Solid(s)
    ensures Paragraphs(s) == [s]
  {
    BlankLineIs(s, "");
    assert s[..|s|] == s;
    assert NextParagraph(s) == "";
  }

  lemma WrittenStep(s: string, t: string)
    requires Solid(s) && StartsSolid(s) && StartsSolid(t)
    ensures Paragraphs(s + ("\n\n" + t)) == [s] + Paragraphs(t)
    ensures StartsSolid(s + ("\n\n" + t))
  {
    BlankLineIs(s, t);
    var all := s + ("\n\n" + t);
    assert TrimLeft(t, '\n') == t;
    hide BlankLine, Solid, IsSpace, TrimLeft;
    assert all[..|s|] == s && all[|s| + 2..] == t && all[0] == s[0];
    assert NextParagraph(all) == t;
    hide NextParagraph;
    assert Paragraphs(all) == [all[..BlankLine(all)]] + Paragraphs(NextParagraph(all));
  }

  lemma WrittenIsWellFormed(stanzas: seq<seq<Line>>, tail: string)
    requires IndexFile(stanzas) && AllSpace(tail)
    ensures WellFormed(Written(stanzas) + tail) && TrimSpace(Written(stanzas) + tail) == Written(stanzas)
  {
    WrittenParagraphs(stanzas);
    var w := Written(stanzas);
    hide Paragraphs, WellFormedStanza, IndexStanza, Written, PlainStanza;
    if stanzas != [] {
      WrittenIsTrimmed(stanzas);
      TrimmedStays(w, tail);
      assert TrimLeftSpace(w + tail) == w + tail by { assert (w + tail)[0] == w[0]; }
    } else {
      assert w == "" by { WrittenNothing(); }
      assert w + tail == tail;
      AllSpaceTrims(tail);
    }
    hide TrimSpace, TrimLeftSpace;
  }

  lemma WrittenNothing()
    ensures Written([]) == ""
  {
  }

  /** Reading back what was written, with any white space around values and at the end of the file and
      with any other fields and lines: both parsers return exactly the written packages the filter
      allows, in order, each with its own name, architecture (or "all") and version. */
  lemma ParsersReadBack(ctx: Context, stanzas: seq<seq<Line>>, tail: string)
    requires IndexFile(stanzas) && AllSpace(tail)
    ensures Stream(ctx, Written(stanzas) + tail, BLANK) == ExpectedAll(ctx, stanzas)
    ensures BytesParse(ctx, Written(stanzas) + tail) == ExpectedAll(ctx, stanzas)
  {
    hide Stream, ExpectedAll, BytesParse, IndexStanza, PlainStanza, LinesText, TrimSpace, WellFormed, IsSpace;
    ScannerReadsWritten(ctx, stanzas);
    WrittenIsWellFormed(stanzas, tail);
    ParsersAgree(ctx, Written(stanzas) + tail);
    if stanzas == [] {
      WrittenNothing();
      assert "" + tail == tail;
      SpaceOnlyStream(ctx, tail, BLANK);
      SpaceOnlyStream(ctx, "", BLANK);
    } else {
      WrittenIsTrimmed(stanzas);
      TrimmedMeans(Written(stanzas));
      TrailingSpace(ctx, Written(stanzas), tail, BLANK);
    }
  }

  // ----- Carriage returns -----

  lemma {:induction false} StreamLines(ctx: Context, ls: seq<Line>, rest: string, e: Entry)
    requires ls != [] && AllPlain(ls) && forall l | l in ls :: LineText(l) != ""
    ensures Stream(ctx, LinesText(ls) + ("\n" + rest), e) == Stream(ctx, rest, Folded(ls, e))
  {
    var l, line := ls[0], LineText(ls[0]);
    var more := if |ls| == 1 then rest else LinesText(ls[1..]) + ("\n" + rest);
    LineLines(l, more);
    LineIsOneLine(l);
    LineIsRead(e, l, false);
    DropCRReads(e, line);
    assert LinesText(ls) + ("\n" + rest) == line + ("\n" + more);
    hide LineText, PlainLine, FirstLine, AfterLine, ReadLine, Step, DropCR, LinesText, Emitted;
    if |ls| == 1 {
      assert Folded(ls[1..], Step(e, l)) == Step(e, l);
    } else {
      StreamLines(ctx, ls[1..], rest, Step(e, l));
    }
  }

  /** The scanner also ends a stanza at a line that holds just a carriage return. */
  lemma CarriageReturnEndsStanza(ctx: Context, ls: seq<Line>, rest: string)
    requires IndexStanza(ls)
    ensures Stream(ctx, LinesText(ls) + ("\n" + ("\r\n" + rest)), BLANK) == Expected(ctx, ls) + Stream(ctx, rest, BLANK)
  {
    StreamLines(ctx, ls, "\r\n" + rest, BLANK);
    StanzaIsExpected(ctx, ls);
    LinesAreRead(ls, BLANK, false);
    ReturnLine(ctx, rest, Folded(ls, BLANK));
    hide LinesText, Folded, Expected, Emitted, AllFields, Stream, WellFormedStanza, Solid, StartsSolid;
  }

  lemma ReturnLine(ctx: Context, rest: string, e: Entry)
    ensures Stream(ctx, "\r\n" + rest, e) == Emitted(ctx, e) + Stream(ctx, rest, BLANK)
  {
    var r := "\r\n" + rest;
    assert FirstLine(r) == "\r" && AfterLine(r) == rest by {
      FirstLineAcross("\r", "\n" + rest);
      NewlineFirst(rest);
      assert "\r" + ("\n" + rest) == r && "\r" + "" == "\r";
    }
    hide Emitted, FirstLine, AfterLine, ReadLine;
  }

  // ----- The marks of an index -----

  /** `c` is `d` in some case, for a lower-case ASCII letter `d`; two non-ASCII letters fold to one. */
  predicate InAnyCase(c: char, d: char) {
    || c == d || ('A' <= c <= 'Z' && c as int + 32 == d as int)
    || (c == '\U{130}' && d == 'i') || (c == '\U{212A}' && d == 'k')
  }

  predicate StartsInAnyCase(s: string, word: string) {
    |word| <= |s| && forall j | 0 <= j < |word| :: InAnyCase(s[j], word[j])
  }

  /** The word occurs somewhere, in any case. */
  predicate Mentions(s: string, word: string) {
    exists i | 0 <= i <= |s| :: StartsInAnyCase(s[i..], word)
  }

  predicate IsLowerWord(word: string) {
    forall j | 0 <= j < |word| :: 'a' <= word[j] <= 'z'
  }

  lemma FoldedCharMeans(c: char, d: char)
    requires 'a' <= d <= 'z'
    ensures LowerChar(c) == d <==> InAnyCase(c, d)
  {
  }

  lemma StartsFoldedMeans(s: string, word: string)
    requires IsLowerWord(word)
    ensures StartsFolded(s, word) <==> StartsInAnyCase(s, word)
  {
    forall j | 0 <= j < |word| && j < |s| ensures LowerChar(s[j]) == word[j] <==> InAnyCase(s[j], word[j]) {
      FoldedCharMeans(s[j], word[j]);
    }
    hide LowerChar, InAnyCase;
  }

  lemma {:induction false} ContainsFoldMeans(s: string, word: string)
    requires IsLowerWord(word) && word != ""
    ensures ContainsFold(s, word) <==> Mentions(s, word)
  {
    StartsFoldedMeans(s, word);
    hide StartsFolded, StartsInAnyCase;
    assert s[0..] == s;
    if s == "" {
      assert !StartsInAnyCase("", word) by { TooShort(word); }
      assert forall i | 0 <= i <= |s| :: s[i..] == "";
    } else {
      ContainsFoldMeans(s[1..], word);
      forall i | 0 < i <= |s| ensures s[i..] == s[1..][i - 1..] {
      }
    }
  }

  lemma TooShort(word: string)
    requires word != ""
    ensures !StartsInAnyCase("", word)
  {
  }

  /** What an index file yields: its name decides the security mark and, unless the release says so
      already, the backports mark; a missing priority is 500. */
  lemma IndexReadsBack(index: PackageIndex, stanzas: seq<seq<Line>>, tail: string, filter: Option<Filter>)
    requires IndexFile(stanzas) && AllSpace(tail) && index.data == Written(stanzas) + tail
    ensures var marks := Context(Mentions(index.name, "security"), if index.priority == 0 then 500 else index.priority,
                                 index.backports || Mentions(index.name, "backports"), filter);
            ParseIndexes([index], filter) == ExpectedAll(marks, stanzas)
  {
    ContainsFoldMeans(index.name, "security");
    ContainsFoldMeans(index.name, "backports");
    var ctx := ContextOf(index.name, index.priority, index.backports, filter);
    ParsersReadBack(ctx, stanzas, tail);
    hide ContainsFold, Mentions, ExpectedAll, BytesParse, IndexFile;
    assert [index][..0] == [];
    assert ParseIndexes([index][..0], filter) == [];
    assert [] + BytesParse(ctx, index.data) == BytesParse(ctx, index.data);
  }

  // ----- Outside the well-formed indexes -----

  const UNFILTERED := Context(false, 500, false, None)

  function VersionTwice(v: string, w: string): seq<Line> {
    [FieldLine("Package", " ", "a", ""), FieldLine("Architecture", " ", "b", ""), FieldLine("Version", " ", v, ""), FieldLine("Version", " ", w, "")]
  }

  /** A stanza that repeats its version: the scanner keeps the last one, while the paragraph parser
      stops at the first. So they agree on it only if the two versions are the same. */
  lemma RepeatedFieldsSplitTheParsers(v: string, w: string)
    requires v != "" && w != "" && PlainValue(v) && PlainValue(w)
    ensures var text := LinesText(VersionTwice(v, w));
            Stream(UNFILTERED, text, BLANK) == BytesParse(UNFILTERED, text) <==> v == w
  {
    TwiceStreams(v, w);
    TwiceParses(v, w);
    hide VersionTwice, PlainValue, Stream, BytesParse, LinesText;
    assert Emitted(UNFILTERED, Entry("a", "b", w))[0].version == w;
    assert Emitted(UNFILTERED, Entry("a", "b", v))[0].version == v;
  }

  lemma TwiceIsPlain(v: string, w: string)
    requires v != "" && w != "" && PlainValue(v) && PlainValue(w)
    ensures PlainStanza(VersionTwice(v, w)) && EndsSolid(LinesText(VersionTwice(v, w)))
    ensures forall l | l in VersionTwice(v, w) :: LineText(l) != ""
  {
    var ls := VersionTwice(v, w);
    LiteralsArePlain();
    SpacedLine("Package", "a");
    SpacedLine("Architecture", "b");
    SpacedLine("Version", v);
    SpacedLine("Version", w);
    hide PlainKey, PlainLine, LineText, PlainValue, LinesText, PlainStanza, StartsSolid, EndsSolid;
    FourPlain(ls);
  }

  lemma FourPlain(ls: seq<Line>)
    requires |ls| == 4 && PlainLine(ls[0]) && PlainLine(ls[1]) && PlainLine(ls[2]) && PlainLine(ls[3])
    requires StartsSolid(LineText(ls[0])) && StartsSolid(LineText(ls[1]))
    requires StartsSolid(LineText(ls[2])) && StartsSolid(LineText(ls[3])) && EndsSolid(LineText(ls[3]))
    ensures PlainStanza(ls) && EndsSolid(LinesText(ls)) && forall l | l in ls :: LineText(l) != ""
  {
    hide PlainLine, LineText, LinesText;
    EndOfFour(ls);
  }

  lemma LiteralsArePlain()
    ensures PlainKey("Package") && PlainKey("Architecture") && PlainKey("Version") && PlainValue("a") && PlainValue("b")
  {
  }

  lemma SpacedLine(key: string, value: string)
    requires PlainKey(key) && PlainValue(value) && value != "" && StartsSolid(key)
    ensures var l := FieldLine(key, " ", value, "");
            PlainLine(l) && StartsSolid(LineText(l)) && EndsSolid(LineText(l))
  {
    hide PlainKey, IsSpace;
    assert IsGap(" ") && IsGap("") by { SpaceIsGap(); }
    hide IsGap;
    var text := LineText(FieldLine(key, " ", value, ""));
    assert text[0] == key[0] && text[|text| - 1] == value[|value| - 1];
  }

  lemma SpaceIsGap()
    ensures IsGap(" ") && IsGap("")
  {
  }

  lemma EndOfFour(ls: seq<Line>)
    requires |ls| == 4 && LineText(ls[3]) != ""
    ensures var text, last := LinesText(ls), LineText(ls[3]);
            text != "" && text[|text| - 1] == last[|last| - 1]
  {
    hide LineText;
    var three, two, one := ls[1..], ls[2..], ls[3..];
    assert three[1..] == two && two[1..] == one && one == [ls[3]];
    assert LinesText(one) == LineText(ls[3]);
    assert LinesText(two) == LineText(ls[2]) + ("\n" + LinesText(one));
    assert LinesText(three) == LineText(ls[1]) + ("\n" + LinesText(two));
    assert LinesText(ls) == LineText(ls[0]) + ("\n" + LinesText(three));
  }

  lemma TwiceStreams(v: string, w: string)
    requires v != "" && w != "" && PlainValue(v) && PlainValue(w)
    ensures Stream(UNFILTERED, LinesText(VersionTwice(v, w)), BLANK) == Emitted(UNFILTERED, Entry("a", "b", w))
  {
    var ls := VersionTwice(v, w);
    TwiceIsPlain(v, w);
    StanzaIsSolid(ls);
    LinesAreRead(ls, BLANK, false);
    TwiceFolded(v, w);
    hide LinesText, PlainValue, TidyLines, CleanLines, Stream, AllFields, Emitted, Solid, Folded, VersionTwice, PlainStanza;
    StreamStanza(UNFILTERED, LinesText(ls), "", BLANK);
    assert LinesText(ls) + "" == LinesText(ls);
  }

  lemma TwiceFolded(v: string, w: string)
    ensures Folded(VersionTwice(v, w), BLANK) == Entry("a", "b", w)
  {
    var ls := VersionTwice(v, w);
    assert Folded(ls[1..], Step(BLANK, ls[0])) == Folded(ls, BLANK);
    assert ls[1..][1..] == ls[2..] && ls[2..][1..] == ls[3..] && ls[3..] == [ls[3]];
    assert Folded(ls[2..], Entry("a", "b", "")) == Folded(ls[1..], Entry("a", "", ""));
    assert Folded(ls[3..], Entry("a", "b", v)) == Folded(ls[2..], Entry("a", "b", ""));
    assert Folded([], Entry("a", "b", w)) == Folded(ls[3..], Entry("a", "b", v));
  }

  /** Cutting stops as soon as all three fields are known. */
  function CutFolded(ls: seq<Line>, e: Entry): Entry {
    if ls == [] then e
    else
      var next := Step(e, ls[0]);
      if ls[0].FieldLine? && Complete(next) then next else CutFolded(ls[1..], next)
  }

  lemma {:induction false} LinesAreCut(ls: seq<Line>, e: Entry)
    requires AllPlain(ls) && forall l | l in ls :: LineText(l) != ""
    ensures Fields(None, LinesText(ls), e) == CutFolded(ls, e)
  {
    if ls != [] {
      var l := ls[0];
      LineLines(l, LinesText(ls[1..]));
      LineIsRead(e, l, true);
      if l.FieldLine? { FieldParts(l); } else { OtherIsNoField(l); }
      FieldsEnd(None, Step(e, l));
      hide LineText, PlainLine, FirstLine, AfterLine, ReadLine, IsField, FieldKey, FieldValue, Step;
      LinesAreCut(ls[1..], Step(e, l));
    }
  }

  lemma TwiceParses(v: string, w: string)
    requires v != "" && w != "" && PlainValue(v) && PlainValue(w)
    ensures BytesParse(UNFILTERED, LinesText(VersionTwice(v, w))) == Emitted(UNFILTERED, Entry("a", "b", v))
  {
    var ls := VersionTwice(v, w);
    var p := LinesText(ls);
    TwiceIsPlain(v, w);
    StanzaIsSolid(ls);
    LinesAreCut(ls, BLANK);
    TwiceCut(v, w);
    hide LinesText, PlainValue, TidyLines, Fields, Emitted, Solid, CutFolded, VersionTwice, PlainStanza;
    TrimmedStays(p, "");
    assert p + "" == p;
    OneParagraph(p);
    hide TrimSpace, Paragraphs, EmittedFromParagraph, EmittedFromParagraphs;
    CutParagraphs(UNFILTERED, p);
    FlatMapOneCut(p);
    ParagraphIsCut(UNFILTERED, p);
  }

  lemma FlatMapOneCut(p: string)
    requires EmittedFromParagraphs(UNFILTERED, p) == Sorting.FlatMap(Cut(UNFILTERED), [p])
    ensures EmittedFromParagraphs(UNFILTERED, p) == EmittedFromParagraph(UNFILTERED, p)
  {
    hide EmittedFromParagraph, EmittedFromParagraphs;
    Sorting.FlatMapOne(Cut(UNFILTERED), p);
  }

  lemma TwiceCut(v: string, w: string)
    requires v != ""
    ensures CutFolded(VersionTwice(v, w), BLANK) == Entry("a", "b", v)
  {
    var ls := VersionTwice(v, w);
    assert ls[1..][1..] == ls[2..];
    assert CutFolded(ls, BLANK) == CutFolded(ls[1..], Entry("a", "", ""));
    assert CutFolded(ls[1..], Entry("a", "", "")) == CutFolded(ls[2..], Entry("a", "b", ""));
  }
}
