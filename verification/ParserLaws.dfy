/** The two package-index parsers agree, and filtering loses nothing an installed package can use. */
module ParserLaws {
  import opened Packages
  import opened Text
  import opened Versions
  import opened PackageIndexes
  import opened Whitespace
  import opened Sorting
  import opened EarlyExits

  // ----- Well-formed stanzas -----

  predicate IsIndexField(key: string) {
    key == "Package" || key == "Architecture" || key == "Version"
  }

  /** No line is a lone carriage return. */
  predicate CleanLines(p: string)
    decreases |p|
  {
    p != "" ==> FirstLine(p) != "\r" && CleanLines(AfterLine(p))
  }

  /** The keys that matter carry no white space. */
  predicate PlainKeys(p: string)
    decreases |p|
  {
    p != "" ==>
      var line := FirstLine(p);
      && (IsField(line) && IsIndexField(FieldKey(line, true)) ==> RawKey(line) == FieldKey(line, true))
      && PlainKeys(AfterLine(p))
  }

  predicate TidyLines(p: string) {
    CleanLines(p) && PlainKeys(p)
  }

  predicate WellFormedStanza(p: string) {
    ReadsAlike(p) && CleanLines(p)
  }

  lemma IndexFieldsAreTrimmed(key: string)
    requires IsIndexField(key)
    ensures TrimSpace(key) == key
  {
  }

  lemma {:induction false} TidyKeys(p: string, e: Entry)
    requires PlainKeys(p)
    ensures AllFields(p, e, true) == AllFields(p, e, false)
    decreases |p|
  {
    if p != "" {
      var line := FirstLine(p);
      if IsField(line) && IsIndexField(RawKey(line)) {
        IndexFieldsAreTrimmed(RawKey(line));
      }
      assert ReadLine(e, line, true) == ReadLine(e, line, false);
      TidyKeys(AfterLine(p), ReadLine(e, line, true));
    }
  }

  /** Paragraphs without repeated fields read alike when their keys are plain. */
  lemma UniqueFieldsReadAlike(p: string)
    requires UniqueFields(p) && PlainKeys(p)
    ensures ReadsAlike(p)
  {
    hide Emitted, EmittedFromParagraph, Fields, Steady, AllFields, Occurrences;
    TidyKeys(p, BLANK);
    forall ctx ensures EmittedFromParagraph(ctx, p) == Emitted(ctx, AllFields(p, BLANK, false)) {
      ParagraphIsCut(ctx, p);
      EarlyExitsAreSound(ctx, p, BLANK);
    }
    StanzasAgreeExactly(p);
  }

  /** Text none of whose lines is empty. */
  predicate Solid(p: string) {
    && p != "" && p[0] != '\n' && p[|p| - 1] != '\n'
    && forall k | 0 <= k && k + 1 < |p| :: !(p[k] == '\n' && p[k + 1] == '\n')
  }

  lemma SolidTail(p: string)
    requires Solid(p) && IndexOf(p, '\n') < |p|
    ensures FirstLine(p) != "" && Solid(AfterLine(p))
  {
    var i := IndexOf(p, '\n');
    hide IndexOf;
    var r := AfterLine(p);
    assert p[i + 1] != '\n' && r[0] == p[i + 1] && r[|r| - 1] == p[|p| - 1];
    forall k | 0 <= k && k + 1 < |r| ensures !(r[k] == '\n' && r[k + 1] == '\n') {
      assert r[k] == p[i + 1 + k] && r[k + 1] == p[i + 2 + k];
    }
  }

  /** The scanner reads a stanza to its end, and emits it at the blank line or the end of input. */
  lemma {:induction false} StreamStanza(ctx: Context, p: string, t: string, e: Entry)
    requires Solid(p) && CleanLines(p)
    requires t != "" ==> |t| >= 2 && t[0] == '\n' && t[1] == '\n'
    ensures Stream(ctx, p + t, e)
         == Emitted(ctx, AllFields(p, e, false)) + if t == "" then [] else Stream(ctx, t[2..], BLANK)
    decreases |p|
  {
    var line := FirstLine(p);
    if IndexOf(p, '\n') < |p| {
      FirstLineWithin(p, t);
      SolidTail(p);
      DropCRReads(e, line);
      StreamStanza(ctx, AfterLine(p), t, ReadLine(e, line, false));
    } else {
      SingleLine(p);
      FirstLineAcross(p, t);
      DropCRReads(e, p);
      var next := ReadLine(e, p, false);
      assert AllFields(p, e, false) == next;
      if t == "" {
        assert p + t == p;
        assert Stream(ctx, p, e) == Stream(ctx, "", next);
      } else {
        assert p + FirstLine(t) == p;
        assert Stream(ctx, p + t, e) == Stream(ctx, t[1..], next);
        assert FirstLine(t[1..]) == "" && AfterLine(t[1..]) == t[2..];
      }
    }
  }

  lemma {:induction false} SkipNewlines(ctx: Context, s: string)
    ensures Stream(ctx, TrimLeft(s, '\n'), BLANK) == Stream(ctx, s, BLANK)
  {
    if s != "" && s[0] == '\n' {
      SkipNewlines(ctx, s[1..]);
      assert FirstLine(s) == "" && AfterLine(s) == s[1..];
    }
  }

  // ----- Whole indexes -----

  predicate StartsAndEndsSolid(t: string) {
    t != "" ==> t[0] != '\n' && t[|t| - 1] != '\n'
  }

  lemma {:induction false} TrimLeftIsSuffix(s: string, c: char)
    ensures TrimLeft(s, c) == s[|s| - |TrimLeft(s, c)|..]
    ensures s != "" && s[|s| - 1] != c ==> TrimLeft(s, c) != ""
  {
    if s != "" && s[0] == c {
      TrimLeftIsSuffix(s[1..], c);
      var n := |TrimLeft(s, c)|;
      hide TrimLeft;
      assert s[1..][|s| - 1 - n..] == s[|s| - n..];
    }
  }

  lemma ParagraphIsSolid(t: string)
    requires t != "" && StartsAndEndsSolid(t)
    ensures Solid(t[..BlankLine(t)]) && StartsAndEndsSolid(NextParagraph(t))
    ensures BlankLine(t) < |t| ==> NextParagraph(t) != ""
  {
    NoBlankBefore(t);
    hide BlankLine;
    var i := BlankLine(t);
    PrefixIsSolid(t, i);
    if i < |t| {
      TrimLeftIsSuffix(t[i + 2..], '\n');
      hide TrimLeft, Solid;
    }
  }

  lemma PrefixIsSolid(t: string, i: nat)
    requires 0 < i <= |t| && StartsAndEndsSolid(t)
    requires i < |t| ==> t[i] == '\n'
    requires forall k | 0 <= k < i && k + 1 < |t| :: !(t[k] == '\n' && t[k + 1] == '\n')
    ensures Solid(t[..i])
  {
    var p := t[..i];
    assert p[i - 1] == t[i - 1];
    forall k | 0 <= k && k + 1 < |p| ensures !(p[k] == '\n' && p[k + 1] == '\n') {
      assert p[k] == t[k] && p[k + 1] == t[k + 1];
    }
  }

  /** What the scanner emits for one paragraph. */
  function Scanned(ctx: Context): string -> seq<AvailablePackage> {
    p => Emitted(ctx, AllFields(p, BLANK, false))
  }

  /** What the paragraph parser emits for one paragraph. */
  function Cut(ctx: Context): string -> seq<AvailablePackage> {
    p => EmittedFromParagraph(ctx, p)
  }

  lemma StreamParagraph(ctx: Context, t: string)
    requires t != "" && StartsAndEndsSolid(t) && CleanLines(t[..BlankLine(t)])
    ensures Stream(ctx, t, BLANK)
         == Emitted(ctx, AllFields(t[..BlankLine(t)], BLANK, false)) + Stream(ctx, NextParagraph(t), BLANK)
  {
    hide Stream, AllFields, TrimLeft, BlankLine, CleanLines;
    var i := BlankLine(t);
    var p := t[..i];
    ParagraphIsSolid(t);
    StreamStanza(ctx, p, t[i..], BLANK);
    StreamEnd(ctx, BLANK);
    assert Emitted(ctx, BLANK) == [];
    assert t == p + t[i..];
    if i < |t| {
      assert t[i..][2..] == t[i + 2..];
      SkipNewlines(ctx, t[i + 2..]);
    }
  }

  lemma {:induction false} StreamParagraphs(ctx: Context, t: string)
    requires StartsAndEndsSolid(t)
    requires forall p | p in Paragraphs(t) :: CleanLines(p)
    ensures Stream(ctx, t, BLANK) == FlatMap(Scanned(ctx), Paragraphs(t))
    decreases |t|
  {
    hide Stream, AllFields, TrimLeft, BlankLine, CleanLines, NextParagraph, Emitted;
    if t == "" {
      StreamEnd(ctx, BLANK);
      BlankIsEmpty(ctx);
    } else {
      var p, next := t[..BlankLine(t)], NextParagraph(t);
      assert Paragraphs(t) == [p] + Paragraphs(next);
      assert forall q | q in Paragraphs(next) :: q in Paragraphs(t);
      ParagraphIsSolid(t);
      StreamParagraph(ctx, t);
      StreamParagraphs(ctx, next);
      FlatMapAppend(Scanned(ctx), [p], Paragraphs(next));
      FlatMapOne(Scanned(ctx), p);
    }
  }

  lemma {:induction false} CutParagraphs(ctx: Context, t: string)
    ensures EmittedFromParagraphs(ctx, t) == FlatMap(Cut(ctx), Paragraphs(t))
    decreases |t|
  {
    hide EmittedFromParagraph, BlankLine, NextParagraph;
    if t != "" {
      var p, next := t[..BlankLine(t)], NextParagraph(t);
      assert Paragraphs(t) == [p] + Paragraphs(next);
      CutParagraphs(ctx, next);
      FlatMapAppend(Cut(ctx), [p], Paragraphs(next));
      FlatMapOne(Cut(ctx), p);
    }
  }

  lemma {:induction false} SpaceOnlyStream(ctx: Context, w: string, e: Entry)
    requires AllSpace(w)
    ensures Stream(ctx, w, e) == Emitted(ctx, e)
    decreases |w|
  {
    if w != "" {
      var line := DropCR(FirstLine(w));
      SpaceSaysNothing(e, line, false);
      SpaceOnlyStream(ctx, AfterLine(w), if line == "" then BLANK else e);
    }
  }

  lemma SolidEndKept(t: string)
    requires t != "" && !IsSpace(t[|t| - 1])
    ensures DropCR(t) == t && t[|t| - 1] != '\n'
  {
  }

  lemma {:induction false} TrailingSpace(ctx: Context, t: string, w: string, e: Entry)
    requires AllSpace(w) && t != "" && !IsSpace(t[|t| - 1])
    ensures Stream(ctx, t + w, e) == Stream(ctx, t, e)
    decreases |t|
  {
    hide TrimSpace, ReadLine, IsSpace, Emitted;
    SolidEndKept(t);
    if IndexOf(t, '\n') < |t| {
      FirstLineWithin(t, w);
      var line := DropCR(FirstLine(t));
      assert AfterLine(t) != "";
      TrailingSpace(ctx, AfterLine(t), w, if line == "" then BLANK else ReadLine(e, line, false));
    } else {
      SingleLine(t);
      FirstLineAcross(t, w);
      var line := t + FirstLine(w);
      DropCRReads(e, line);
      ReadLineAppend(e, t, FirstLine(w));
      SpaceOnlyStream(ctx, AfterLine(w), ReadLine(e, t, false));
      assert Stream(ctx, t, e) == Stream(ctx, "", ReadLine(e, t, false));
    }
  }

  lemma {:induction false} LeadingSpace(ctx: Context, lead: string, t: string)
    requires AllSpace(lead)
    requires lead != "" ==> lead[|lead| - 1] == '\n'
    ensures Stream(ctx, lead + t, BLANK) == Stream(ctx, t, BLANK)
    decreases |lead|
  {
    if lead == "" {
      assert lead + t == t;
    } else {
      LineIsSpace(lead);
      FirstLineWithin(lead, t);
      SpaceSaysNothing(BLANK, DropCR(FirstLine(lead)), false);
      BlankIsEmpty(ctx);
      hide FirstLine, AfterLine, DropCR, AllSpace, Emitted, ReadLine;
      LeadingSpace(ctx, AfterLine(lead), t);
    }
  }

  /** White space that ends a line starts with a line of white space. */
  lemma LineIsSpace(lead: string)
    requires AllSpace(lead) && lead != "" && lead[|lead| - 1] == '\n'
    ensures IndexOf(lead, '\n') < |lead|
    ensures AllSpace(DropCR(FirstLine(lead))) && AllSpace(AfterLine(lead))
    ensures AfterLine(lead) != "" ==> AfterLine(lead)[|AfterLine(lead)| - 1] == '\n'
  {
    IndexOfLacks(lead, '\n');
    hide IndexOf, IsSpace;
    var i := IndexOf(lead, '\n');
    assert forall k | 0 <= k < |AfterLine(lead)| :: AfterLine(lead)[k] == lead[i + 1 + k];
  }

  /** White space before the first stanza consists of whole lines. */
  predicate StartsOnALine(data: string) {
    var body := TrimLeftSpace(data);
    body == "" || |body| >= |data| || data[|data| - |body| - 1] == '\n'
  }

  predicate WellFormed(data: string) {
    StartsOnALine(data) && forall p | p in Paragraphs(TrimSpace(data)) :: WellFormedStanza(p)
  }

  /** Well formed up to what the fields say. */
  predicate Tidy(data: string) {
    StartsOnALine(data) && forall p | p in Paragraphs(TrimSpace(data)) :: TidyLines(p)
  }

  /** The scanner emits paragraph by paragraph. */
  lemma StreamIsScanned(ctx: Context, data: string)
    requires StartsOnALine(data)
    requires forall p | p in Paragraphs(TrimSpace(data)) :: CleanLines(p)
    ensures Stream(ctx, data, BLANK) == FlatMap(Scanned(ctx), Paragraphs(TrimSpace(data)))
  {
    hide Stream, TrimLeftSpace, TrimRightSpace, CleanLines;
    var t := TrimSpace(data);
    if t == "" {
      TrimmedAwayIsSpace(data);
      SpaceOnlyStream(ctx, data, BLANK);
      BlankIsEmpty(ctx);
    } else {
      var lead, trail := TrimmedParts(data);
      hide Paragraphs, StartsOnALine, TrimSpace, Scanned, AllSpace, IsSpace;
      LeadingSpace(ctx, lead, t + trail);
      TrailingSpace(ctx, t, trail, BLANK);
      StreamParagraphs(ctx, t);
    }
  }

  lemma LeadingPart(data: string) returns (lead: string)
    requires StartsOnALine(data) && TrimLeftSpace(data) != ""
    ensures data == lead + TrimLeftSpace(data) && AllSpace(lead) && !IsSpace(TrimLeftSpace(data)[0])
    ensures lead != "" ==> lead[|lead| - 1] == '\n'
  {
    hide AllSpace, IsSpace, TrimLeftSpace;
    TrimLeftCuts(data);
    lead := data[..|data| - |TrimLeftSpace(data)|];
  }

  lemma TrailingPart(body: string) returns (trail: string)
    requires TrimRightSpace(body) != ""
    ensures var t := TrimRightSpace(body);
            body == t + trail && AllSpace(trail) && !IsSpace(t[|t| - 1]) && t[0] == body[0]
  {
    hide AllSpace, IsSpace, TrimRightSpace;
    TrimRightCuts(body);
    trail := body[|TrimRightSpace(body)|..];
  }

  lemma EndsAreSolid(t: string)
    requires t != "" && !IsSpace(t[0]) && !IsSpace(t[|t| - 1])
    ensures StartsAndEndsSolid(t)
  {
  }

  /** The text between its surrounding white space. */
  lemma TrimmedParts(data: string) returns (lead: string, trail: string)
    requires StartsOnALine(data) && TrimSpace(data) != ""
    ensures var t := TrimSpace(data);
            && data == lead + (t + trail) && AllSpace(lead) && AllSpace(trail)
            && (lead != "" ==> lead[|lead| - 1] == '\n')
            && StartsAndEndsSolid(t) && !IsSpace(t[|t| - 1])
  {
    hide AllSpace, IsSpace, StartsOnALine, StartsAndEndsSolid, TrimLeftSpace;
    NothingStaysNothing();
    hide TrimRightSpace;
    lead := LeadingPart(data);
    trail := TrailingPart(TrimLeftSpace(data));
    EndsAreSolid(TrimSpace(data));
  }

  lemma NothingStaysNothing()
    ensures TrimRightSpace("") == ""
  {
  }

  /** On every well-formed index and under every filter, scanning lines and cutting paragraphs
      produce the same packages in the same order. */
  lemma ParsersAgree(ctx: Context, data: string)
    requires WellFormed(data)
    ensures Stream(ctx, data, BLANK) == BytesParse(ctx, data)
  {
    hide StartsOnALine, Stream, EmittedFromParagraphs, Paragraphs, TrimSpace, CleanLines, ReadsAlike;
    var ps := Paragraphs(TrimSpace(data));
    StreamIsScanned(ctx, data);
    CutParagraphs(ctx, TrimSpace(data));
    forall p | p in ps ensures Scanned(ctx)(p) == Cut(ctx)(p) {
      StanzasAgreeExactly(p);
    }
    FlatMapAgree(Scanned(ctx), Cut(ctx), ps);
  }

  /** Without a filter the paragraph parser emits whenever the scanner does. */
  lemma OpenCutsAtLeast(ctx: Context, p: string)
    requires ctx.filter.None? && PlainKeys(p)
    ensures |Scanned(ctx)(p)| <= |Cut(ctx)(p)|
  {
    hide Fields, AllFields, EmittedFromParagraph;
    ParagraphIsCut(ctx, p);
    TidyKeys(p, BLANK);
    OpenCutIsLastOrComplete(p, BLANK);
  }

  lemma {:induction false} OpenCutIsLastOrComplete(p: string, e: Entry)
    ensures Fields(None, p, e) == AllFields(p, e, true) || Complete(Fields(None, p, e))
    decreases |p|
  {
    hide TrimSpace, FirstLine, AfterLine, IsField, FieldKey, FieldValue;
    if p != "" {
      OpenCutIsLastOrComplete(AfterLine(p), ReadLine(e, FirstLine(p), true));
    }
  }

  /** A filter only takes packages away from what the paragraph parser would emit without it. */
  lemma FilteredCutsAtMost(ctx: Context, p: string)
    requires Scanned(ctx.(filter := None))(p) == Cut(ctx.(filter := None))(p)
    ensures |Cut(ctx)(p)| <= |Scanned(ctx)(p)|
  {
    hide Fields, AllFields, EmittedFromParagraph, Emitted;
    ParagraphIsCut(ctx, p);
    ParagraphIsCut(ctx.(filter := None), p);
    FilteredCutIsOpenOrBlank(ctx.filter, p, BLANK);
    BlankIsEmpty(ctx);
    SameEmissionOpen(ctx, Fields(None, p, BLANK), AllFields(p, BLANK, false));
  }

  lemma {:induction false} FilteredCutIsOpenOrBlank(filter: Option<Filter>, p: string, e: Entry)
    ensures Fields(filter, p, e) == BLANK || Fields(filter, p, e) == Fields(None, p, e)
    decreases |p|
  {
    hide TrimSpace, FirstLine, AfterLine, IsField, FieldKey, FieldValue;
    if p != "" {
      FilteredCutIsOpenOrBlank(filter, AfterLine(p), ReadLine(e, FirstLine(p), true));
    }
  }

  /** Agreement on the whole index is agreement on every paragraph: the pieces cannot make up for
      each other. */
  lemma PiecesAgree(ctx: Context, data: string, p: string)
    requires Tidy(data) && p in Paragraphs(TrimSpace(data))
    requires Stream(ctx, data, BLANK) == BytesParse(ctx, data)
    requires Stream(ctx.(filter := None), data, BLANK) == BytesParse(ctx.(filter := None), data)
    ensures Scanned(ctx)(p) == Cut(ctx)(p)
  {
    hide StartsOnALine, Stream, EmittedFromParagraphs, Paragraphs, TrimSpace, CleanLines, PlainKeys, Scanned, Cut;
    var ps, open := Paragraphs(TrimSpace(data)), ctx.(filter := None);
    AgreementOnPieces(open, data);
    AgreementOnPieces(ctx, data);
    forall q | q in ps ensures |Scanned(open)(q)| <= |Cut(open)(q)| {
      OpenCutsAtLeast(open, q);
    }
    FlatMapPieces(Scanned(open), Cut(open), ps);
    forall q | q in ps ensures |Cut(ctx)(q)| <= |Scanned(ctx)(q)| {
      FilteredCutsAtMost(ctx, q);
    }
    FlatMapPieces(Cut(ctx), Scanned(ctx), ps);
  }

  lemma AgreementOnPieces(ctx: Context, data: string)
    requires Tidy(data) && Stream(ctx, data, BLANK) == BytesParse(ctx, data)
    ensures FlatMap(Scanned(ctx), Paragraphs(TrimSpace(data))) == FlatMap(Cut(ctx), Paragraphs(TrimSpace(data)))
  {
    hide StartsOnALine, Stream, EmittedFromParagraphs, Paragraphs, TrimSpace, CleanLines, PlainKeys, Scanned, Cut;
    StreamIsScanned(ctx, data);
    CutParagraphs(ctx, TrimSpace(data));
  }

  /** On a tidy index the two parsers agree under every filter if and only if every paragraph reads
      alike. */
  lemma ParsersAgreeExactly(data: string)
    requires Tidy(data)
    ensures (forall ctx :: Stream(ctx, data, BLANK) == BytesParse(ctx, data))
       <==> forall p | p in Paragraphs(TrimSpace(data)) :: ReadsAlike(p)
  {
    hide StartsOnALine, Stream, BytesParse, Paragraphs, TrimSpace, CleanLines, PlainKeys, ReadsAlike;
    if forall p | p in Paragraphs(TrimSpace(data)) :: ReadsAlike(p) {
      forall ctx ensures Stream(ctx, data, BLANK) == BytesParse(ctx, data) {
        ParsersAgree(ctx, data);
      }
    }
    if forall ctx :: Stream(ctx, data, BLANK) == BytesParse(ctx, data) {
      forall p | p in Paragraphs(TrimSpace(data)) ensures ReadsAlike(p) {
        forall ctx ensures EmittedFromParagraph(ctx, p) == Emitted(ctx, AllFields(p, BLANK, false)) {
          PiecesAgree(ctx, data, p);
        }
        StanzasAgreeExactly(p);
      }
    }
  }

  function AsStream(index: PackageIndex): PackageIndexStream {
    PackageIndexStream(index.name, index.priority, index.backports, Opens(Reader(index.data, false), false))
  }

  function AsStreams(indexes: seq<PackageIndex>): seq<PackageIndexStream> {
    seq(|indexes|, i requires 0 <= i < |indexes| => AsStream(indexes[i]))
  }

  /** What scanning, and what cutting, makes of one index under a filter. */
  function ScannedIndex(filter: Option<Filter>): PackageIndex -> seq<AvailablePackage> {
    (index: PackageIndex) => Stream(ContextOf(index.name, index.priority, index.backports, filter), index.data, BLANK)
  }

  function CutIndex(filter: Option<Filter>): PackageIndex -> seq<AvailablePackage> {
    (index: PackageIndex) => BytesParse(ContextOf(index.name, index.priority, index.backports, filter), index.data)
  }

  predicate NoneOverlong(indexes: seq<PackageIndex>) {
    forall index | index in indexes :: !HasLongLine(index.data)
  }

  lemma {:induction false} BuffersArePieces(indexes: seq<PackageIndex>, filter: Option<Filter>)
    ensures ParseIndexes(indexes, filter) == FlatMap(CutIndex(filter), indexes)
  {
    hide BytesParse, ContextOf;
    if indexes != [] {
      BuffersArePieces(indexes[..|indexes| - 1], filter);
    }
  }

  /** The streams are readable exactly when no line is overlong. */
  lemma {:induction false} StreamsArePieces(indexes: seq<PackageIndex>, filter: Option<Filter>)
    ensures ParseStreams(AsStreams(indexes), filter).Ok? <==> NoneOverlong(indexes)
    ensures NoneOverlong(indexes) ==> ParseStreams(AsStreams(indexes), filter) == Ok(FlatMap(ScannedIndex(filter), indexes))
  {
    hide Stream, ContextOf, HasLongLine;
    if indexes != [] {
      var init, last := indexes[..|indexes| - 1], indexes[|indexes| - 1];
      StreamsArePieces(init, filter);
      assert AsStreams(indexes)[..|indexes| - 1] == AsStreams(init);
      assert forall index :: index in indexes <==> index in init || index == last;
    }
  }

  /** Reading a set of well-formed indexes as streams or as buffers gives the same package list. */
  lemma IndexSetsAgree(indexes: seq<PackageIndex>, filter: Option<Filter>)
    requires forall index | index in indexes :: WellFormed(index.data) && !HasLongLine(index.data)
    ensures ParseStreams(AsStreams(indexes), filter) == Ok(ParseIndexes(indexes, filter))
  {
    hide WellFormed, Stream, BytesParse, HasLongLine, ParseStreams, ParseIndexes, ContextOf;
    StreamsArePieces(indexes, filter);
    BuffersArePieces(indexes, filter);
    forall index | index in indexes ensures ScannedIndex(filter)(index) == CutIndex(filter)(index) {
      ParsersAgree(ContextOf(index.name, index.priority, index.backports, filter), index.data);
    }
    FlatMapAgree(ScannedIndex(filter), CutIndex(filter), indexes);
  }

  // ----- Exactly when sets of indexes agree -----

  lemma OpenIndexCutsAtLeast(index: PackageIndex)
    requires Tidy(index.data)
    ensures |ScannedIndex(None)(index)| <= |CutIndex(None)(index)|
  {
    hide StartsOnALine, Stream, EmittedFromParagraphs, Paragraphs, TrimSpace, CleanLines, PlainKeys, Scanned, Cut;
    var ctx := ContextOf(index.name, index.priority, index.backports, None);
    var ps := Paragraphs(TrimSpace(index.data));
    StreamIsScanned(ctx, index.data);
    CutParagraphs(ctx, TrimSpace(index.data));
    forall p | p in ps ensures |Scanned(ctx)(p)| <= |Cut(ctx)(p)| {
      OpenCutsAtLeast(ctx, p);
    }
    FlatMapShorter(Scanned(ctx), Cut(ctx), ps);
  }

  lemma FilteredIndexCutsAtMost(index: PackageIndex, filter: Option<Filter>)
    requires Tidy(index.data) && ScannedIndex(None)(index) == CutIndex(None)(index)
    ensures |CutIndex(filter)(index)| <= |ScannedIndex(filter)(index)|
  {
    hide StartsOnALine, Stream, EmittedFromParagraphs, Paragraphs, TrimSpace, CleanLines, PlainKeys, Scanned, Cut;
    var ctx := ContextOf(index.name, index.priority, index.backports, filter);
    var ps := Paragraphs(TrimSpace(index.data));
    StreamIsScanned(ctx, index.data);
    CutParagraphs(ctx, TrimSpace(index.data));
    forall p | p in ps ensures |Cut(ctx)(p)| <= |Scanned(ctx)(p)| {
      PiecesAgree(ctx.(filter := None), index.data, p);
      FilteredCutsAtMost(ctx, p);
    }
    FlatMapShorter(Cut(ctx), Scanned(ctx), ps);
  }

  /** Agreement of the whole set under a filter and without one is agreement on every index. */
  lemma SetPiecesAgree(indexes: seq<PackageIndex>, filter: Option<Filter>, index: PackageIndex)
    requires index in indexes && forall i | i in indexes :: Tidy(i.data)
    requires FlatMap(ScannedIndex(None), indexes) == FlatMap(CutIndex(None), indexes)
    requires FlatMap(ScannedIndex(filter), indexes) == FlatMap(CutIndex(filter), indexes)
    ensures ScannedIndex(None)(index) == CutIndex(None)(index)
    ensures ScannedIndex(filter)(index) == CutIndex(filter)(index)
  {
    hide Tidy, ScannedIndex, CutIndex;
    forall i | i in indexes ensures |ScannedIndex(None)(i)| <= |CutIndex(None)(i)| {
      OpenIndexCutsAtLeast(i);
    }
    FlatMapPieces(ScannedIndex(None), CutIndex(None), indexes);
    forall i | i in indexes ensures |CutIndex(filter)(i)| <= |ScannedIndex(filter)(i)| {
      FilteredIndexCutsAtMost(i, filter);
    }
    FlatMapPieces(CutIndex(filter), ScannedIndex(filter), indexes);
  }

  /** Of a context only the filter matters for whether two entries yield the same. */
  lemma FilterDecidesEmission(c: Context, d: Context, a: Entry, b: Entry)
    requires c.filter == d.filter && Emitted(c, a) == Emitted(c, b)
    ensures Emitted(d, a) == Emitted(d, b)
  {
  }

  lemma IndexReadsAlike(index: PackageIndex, p: string)
    requires Tidy(index.data) && p in Paragraphs(TrimSpace(index.data))
    requires forall filter :: ScannedIndex(filter)(index) == CutIndex(filter)(index)
    ensures ReadsAlike(p)
  {
    hide Tidy, Paragraphs, TrimSpace, Stream, BytesParse, EmittedFromParagraph, Emitted, Fields, AllFields, ReadsAlike;
    forall ctx: Context ensures EmittedFromParagraph(ctx, p) == Emitted(ctx, AllFields(p, BLANK, false)) {
      var own := ContextOf(index.name, index.priority, index.backports, ctx.filter);
      assert ScannedIndex(ctx.filter)(index) == CutIndex(ctx.filter)(index);
      assert ScannedIndex(None)(index) == CutIndex(None)(index);
      PiecesAgree(own, index.data, p);
      ParagraphIsCut(own, p);
      ParagraphIsCut(ctx, p);
      FilterDecidesEmission(own, ctx, Fields(ctx.filter, p, BLANK), AllFields(p, BLANK, false));
    }
    StanzasAgreeExactly(p);
  }

  /** The packages of a set of indexes agree, read as streams and as buffers. */
  ghost predicate SetsAgree(indexes: seq<PackageIndex>) {
    forall filter :: ParseStreams(AsStreams(indexes), filter) == Ok(ParseIndexes(indexes, filter))
  }

  ghost predicate AllReadAlike(indexes: seq<PackageIndex>) {
    forall index, p | index in indexes && p in Paragraphs(TrimSpace(index.data)) :: ReadsAlike(p)
  }

  lemma AgreeingSetsReadAlike(indexes: seq<PackageIndex>)
    requires forall index | index in indexes :: Tidy(index.data)
    requires SetsAgree(indexes)
    ensures NoneOverlong(indexes) && AllReadAlike(indexes)
  {
    hide StartsOnALine, Paragraphs, TrimSpace, CleanLines, PlainKeys, ReadsAlike, NoneOverlong, ParseStreams, ParseIndexes,
         ScannedIndex, CutIndex, Tidy;
    forall filter
      ensures NoneOverlong(indexes) && FlatMap(ScannedIndex(filter), indexes) == FlatMap(CutIndex(filter), indexes)
    {
      StreamsArePieces(indexes, filter);
      BuffersArePieces(indexes, filter);
    }
    StreamsArePieces(indexes, None);
    forall index, p | index in indexes && p in Paragraphs(TrimSpace(index.data)) ensures ReadsAlike(p) {
      forall filter ensures ScannedIndex(filter)(index) == CutIndex(filter)(index) {
        SetPiecesAgree(indexes, filter, index);
      }
      IndexReadsAlike(index, p);
    }
  }

  /** Tidy indexes give the same list read as streams or as buffers, under every filter, if and only
      if no line is overlong and every paragraph reads alike. */
  lemma IndexSetsAgreeExactly(indexes: seq<PackageIndex>)
    requires forall index | index in indexes :: Tidy(index.data)
    ensures SetsAgree(indexes) <==> NoneOverlong(indexes) && AllReadAlike(indexes)
  {
    hide StartsOnALine, Paragraphs, TrimSpace, CleanLines, PlainKeys, ReadsAlike, HasLongLine, ParseStreams, ParseIndexes;
    if NoneOverlong(indexes) && AllReadAlike(indexes) {
      forall filter ensures ParseStreams(AsStreams(indexes), filter) == Ok(ParseIndexes(indexes, filter)) {
        IndexSetsAgree(indexes, filter);
      }
    }
    if SetsAgree(indexes) {
      AgreeingSetsReadAlike(indexes);
    }
  }
}
