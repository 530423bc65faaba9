/** The two package-index parsers: one cuts a buffer into paragraphs and rejects early, the other
    scans lines and flushes at blank ones. */
module PackageIndexes {
  import opened Packages
  import opened Text
  import opened Versions

  type Filter = map<string, set<string>>

  /** What an index contributes to each of its packages, and the filter in force (`None` is nil). */
  datatype Context = Context(security: bool, priority: int, backports: bool, filter: Option<Filter>)

  /** The fields collected so far from one paragraph. */
  datatype Entry = Entry(name: string, architecture: string, version: string)

  const BLANK := Entry("", "", "")

  // ----- Filtering and appending -----

  predicate FilterAllows(filter: Filter, name: string, architecture: string) {
    name in filter && ArchOrAll(architecture) in filter[name]
  }

  predicate Allows(filter: Option<Filter>, name: string, architecture: string) {
    filter.None? || FilterAllows(filter.value, name, architecture)
  }

  /** What `appendAvailablePackage` adds to the result: nothing or one package. */
  function Emitted(ctx: Context, e: Entry): seq<AvailablePackage> {
    if e.name == "" || e.version == "" then []
    else if !Allows(ctx.filter, e.name, ArchOrAll(e.architecture)) then []
    else [AvailablePackage(e.name, ArchOrAll(e.architecture), e.version, ctx.security, ctx.priority, ctx.backports)]
  }

  /** One pass over the installed packages; each name allows its own architectures and "all". */
  method InstalledPackageFilter(installed: seq<InstalledPackage>) returns (filter: Filter)
    ensures filter == FilterOf(installed)
  {
    filter := map[];
    for i := 0 to |installed|
      invariant filter == FilterOf(installed[..i])
    {
      assert installed[..i + 1][..i] == installed[..i];
      var pkg := installed[i];
      if !IsInstalled(pkg.status) {
        continue;
      }
      if pkg.name == "" {
        continue;
      }
      var arches := if pkg.name in filter then filter[pkg.name] else {};
      filter := filter[pkg.name := arches + {ArchOrAll(pkg.architecture), "all"}];
    }
    assert installed[..|installed|] == installed;
  }

  function FilterOf(installed: seq<InstalledPackage>): Filter {
    if installed == [] then map[]
    else
      var filter, pkg := FilterOf(installed[..|installed| - 1]), installed[|installed| - 1];
      if !IsInstalled(pkg.status) || pkg.name == "" then filter
      else filter[pkg.name := (if pkg.name in filter then filter[pkg.name] else {}) + {ArchOrAll(pkg.architecture), "all"}]
  }

  // ----- Lines and fields -----

  function FirstLine(s: string): string {
    s[..IndexOf(s, '\n')]
  }

  function AfterLine(s: string): (r: string)
    ensures s != "" ==> |r| < |s|
  {
    var i := IndexOf(s, '\n');
    if i < |s| then s[i + 1..] else ""
  }

  predicate IsContinuation(line: string) {
    line != "" && (line[0] == ' ' || line[0] == '\t')
  }

  predicate IsField(line: string) {
    line != "" && !IsContinuation(line) && IndexOf(line, ':') < |line|
  }

  function RawKey(line: string): string {
    line[..IndexOf(line, ':')]
  }

  function FieldKey(line: string, trim: bool): string {
    if trim then TrimSpace(RawKey(line)) else RawKey(line)
  }

  function FieldValue(line: string): string
    requires IsField(line)
  {
    TrimSpace(line[IndexOf(line, ':') + 1..])
  }

  function SetField(e: Entry, key: string, value: string): Entry {
    if key == "Package" then e.(name := value)
    else if key == "Architecture" then e.(architecture := value)
    else if key == "Version" then e.(version := value)
    else e
  }

  function ReadLine(e: Entry, line: string, trim: bool): Entry {
    if IsField(line) then SetField(e, FieldKey(line, trim), FieldValue(line)) else e
  }

  // ----- The line-scanning parser -----

  const MAX_LINE := 4 * 1024 * 1024

  function DropCR(line: string): string {
    if line != "" && line[|line| - 1] == '\r' then line[..|line| - 1] else line
  }

  /** The packages the scanner emits from `data` when it has read `e` of the current paragraph. */
  function Stream(ctx: Context, data: string, e: Entry): seq<AvailablePackage>
    decreases |data|
  {
    if data == "" then Emitted(ctx, e)
    else
      var line := DropCR(FirstLine(data));
      if line == "" then Emitted(ctx, e) + Stream(ctx, AfterLine(data), BLANK)
      else Stream(ctx, AfterLine(data), ReadLine(e, line, false))
  }

  predicate HasLongLine(data: string)
    decreases |data|
  {
    data != "" && (ByteLen(FirstLine(data)) >= MAX_LINE || HasLongLine(AfterLine(data)))
  }

  /** A reader delivers `data` and then ends or fails. */
  datatype Reader = Reader(data: string, fails: bool)

  datatype Result<T> = Ok(value: T) | ReadError | ParseError

  function StreamParse(ctx: Context, reader: Reader): Result<seq<AvailablePackage>> {
    if reader.fails || HasLongLine(reader.data) then ParseError else Ok(Stream(ctx, reader.data, BLANK))
  }

  lemma StreamStep(ctx: Context, data: string, e: Entry)
    requires data != ""
    ensures var line, rest := DropCR(FirstLine(data)), AfterLine(data);
            Stream(ctx, data, e) == if line == "" then Emitted(ctx, e) + Stream(ctx, rest, BLANK)
                                    else Stream(ctx, rest, ReadLine(e, line, false))
    ensures HasLongLine(data) <==> ByteLen(FirstLine(data)) >= MAX_LINE || HasLongLine(AfterLine(data))
  {
  }

  lemma StreamEnd(ctx: Context, e: Entry)
    ensures Stream(ctx, "", e) == Emitted(ctx, e) && !HasLongLine("")
  {
  }

  method ParseAvailablePackageReader(ctx: Context, reader: Reader) returns (result: Result<seq<AvailablePackage>>)
    ensures result == StreamParse(ctx, reader)
  {
    hide ByteLen, TrimSpace, Emitted, Stream, HasLongLine;
    var name, architecture, version := "", "", "";
    var packages: seq<AvailablePackage> := [];
    var rest := reader.data;
    while rest != ""
      invariant HasLongLine(rest) == HasLongLine(reader.data)
      invariant packages + Stream(ctx, rest, Entry(name, architecture, version)) == Stream(ctx, reader.data, BLANK)
      decreases |rest|
    {
      StreamStep(ctx, rest, Entry(name, architecture, version));
      if ByteLen(FirstLine(rest)) >= MAX_LINE {
        return ParseError;
      }
      var line := DropCR(FirstLine(rest));
      rest := AfterLine(rest);
      if |line| == 0 {
        packages := packages + Emitted(ctx, Entry(name, architecture, version));
        name, architecture, version := "", "", "";
        continue;
      }
      if line[0] == ' ' || line[0] == '\t' {
        continue;
      }
      var colon := IndexOf(line, ':');
      if colon == |line| {
        continue;
      }
      var field, value := line[..colon], TrimSpace(line[colon + 1..]);
      if field == "Package" {
        name := value;
      } else if field == "Architecture" {
        architecture := value;
      } else if field == "Version" {
        version := value;
      }
    }
    StreamEnd(ctx, Entry(name, architecture, version));
    if reader.fails {
      return ParseError;
    }
    return Ok(packages + Emitted(ctx, Entry(name, architecture, version)));
  }

  // ----- The paragraph-cutting parser -----

  /** Position of the first of two adjacent newlines, or `|s|`. */
  function BlankLine(s: string): (i: nat)
    ensures i <= |s|
    ensures i < |s| ==> i + 1 < |s| && s[i] == '\n' && s[i + 1] == '\n'
  {
    if |s| < 2 then |s|
    else if s[0] == '\n' && s[1] == '\n' then 0
    else 1 + BlankLine(s[1..])
  }

  function NextParagraph(s: string): (r: string)
    ensures s != "" ==> |r| < |s|
  {
    var i := BlankLine(s);
    if i < |s| then TrimLeft(s[i + 2..], '\n') else ""
  }

  function Paragraphs(trimmed: string): seq<string>
    decreases |trimmed|
  {
    if trimmed == "" then [] else [trimmed[..BlankLine(trimmed)]] + Paragraphs(NextParagraph(trimmed))
  }

  predicate Rejects(filter: Option<Filter>, e: Entry, key: string, value: string) {
    && filter.Some?
    && (if key == "Package" then value !in filter.value
        else key == "Architecture" && e.name != "" && !FilterAllows(filter.value, e.name, value))
  }

  predicate Complete(e: Entry) {
    e.name != "" && e.architecture != "" && e.version != ""
  }

  /** The fields of one paragraph, giving up as soon as the filter rules it out and stopping as soon
      as all three are known. */
  function Fields(filter: Option<Filter>, entry: string, e: Entry): Entry
    decreases |entry|
  {
    if entry == "" then e
    else
      var line, rest := FirstLine(entry), AfterLine(entry);
      if !IsField(line) then Fields(filter, rest, e)
      else if Rejects(filter, e, FieldKey(line, true), FieldValue(line)) then BLANK
      else
        var next := ReadLine(e, line, true);
        if Complete(next) then next else Fields(filter, rest, next)
  }

  lemma FieldsStep(filter: Option<Filter>, entry: string, e: Entry)
    requires entry != ""
    ensures var line, rest := FirstLine(entry), AfterLine(entry);
            Fields(filter, entry, e) ==
              if !IsField(line) then Fields(filter, rest, e)
              else if Rejects(filter, e, FieldKey(line, true), FieldValue(line)) then BLANK
              else
                var next := SetField(e, FieldKey(line, true), FieldValue(line));
                if Complete(next) then next else Fields(filter, rest, next)
  {
  }

  lemma FieldsEnd(filter: Option<Filter>, e: Entry)
    ensures Fields(filter, "", e) == e
  {
  }

  method ParseAvailablePackageFields(filter: Option<Filter>, paragraph: string) returns (e: Entry)
    ensures e == Fields(filter, paragraph, BLANK)
  {
    hide Fields, TrimSpace, FilterAllows;
    var name, architecture, version := "", "", "";
    var entry := paragraph;
    while |entry| > 0
      invariant Fields(filter, entry, Entry(name, architecture, version)) == Fields(filter, paragraph, BLANK)
      decreases |entry|
    {
      FieldsStep(filter, entry, Entry(name, architecture, version));
      var newline := IndexOf(entry, '\n');
      var hasMore := newline < |entry|;
      var line, rest := entry[..newline], if hasMore then entry[newline + 1..] else "";
      assert line == FirstLine(entry) && rest == AfterLine(entry);
      if |line| == 0 || line[0] == ' ' || line[0] == '\t' {
        if !hasMore {
          break;
        }
        entry := rest;
        continue;
      }
      var colon := IndexOf(line, ':');
      if colon == |line| {
        if !hasMore {
          break;
        }
        entry := rest;
        continue;
      }
      var key, value := TrimSpace(line[..colon]), line[colon + 1..];
      assert IsField(line) && FieldKey(line, true) == key && FieldValue(line) == TrimSpace(value);
      if key == "Package" {
        name := TrimSpace(value);
        if filter.Some? && name !in filter.value {
          return BLANK;
        }
      } else if key == "Architecture" {
        architecture := TrimSpace(value);
        if filter.Some? && name != "" && !FilterAllows(filter.value, name, architecture) {
          return BLANK;
        }
      } else if key == "Version" {
        version := TrimSpace(value);
      }
      FieldsEnd(filter, Entry(name, architecture, version));
      if name != "" && architecture != "" && version != "" {
        break;
      }
      if !hasMore {
        break;
      }
      entry := rest;
    }
    FieldsEnd(filter, Entry(name, architecture, version));
    return Entry(name, architecture, version);
  }

  function EmittedFromParagraph(ctx: Context, paragraph: string): seq<AvailablePackage> {
    if TrimSpace(paragraph) == "" then [] else Emitted(ctx, Fields(ctx.filter, paragraph, BLANK))
  }

  function EmittedFromParagraphs(ctx: Context, trimmed: string): seq<AvailablePackage>
    decreases |trimmed|
  {
    if trimmed == "" then []
    else EmittedFromParagraph(ctx, trimmed[..BlankLine(trimmed)]) + EmittedFromParagraphs(ctx, NextParagraph(trimmed))
  }

  lemma ParagraphStep(ctx: Context, trimmed: string)
    requires trimmed != ""
    ensures EmittedFromParagraphs(ctx, trimmed)
         == EmittedFromParagraph(ctx, trimmed[..BlankLine(trimmed)]) + EmittedFromParagraphs(ctx, NextParagraph(trimmed))
  {
  }

  lemma ParagraphsEnd(ctx: Context)
    ensures EmittedFromParagraphs(ctx, "") == []
  {
  }

  function BytesParse(ctx: Context, data: string): seq<AvailablePackage> {
    EmittedFromParagraphs(ctx, TrimSpace(data))
  }

  method ParseIndexBytes(ctx: Context, data: string) returns (packages: seq<AvailablePackage>)
    ensures packages == BytesParse(ctx, data)
  {
    hide EmittedFromParagraphs, Emitted, TrimSpace, TrimLeft, Fields;
    packages := [];
    var trimmed := TrimSpace(data);
    ParagraphsEnd(ctx);
    while |trimmed| > 0
      invariant packages + EmittedFromParagraphs(ctx, trimmed) == BytesParse(ctx, data)
      decreases |trimmed|
    {
      ParagraphStep(ctx, trimmed);
      var blank := BlankLine(trimmed);
      var paragraph := trimmed[..blank];
      if |TrimSpace(paragraph)| > 0 {
        var e := ParseAvailablePackageFields(ctx.filter, paragraph);
        packages := packages + Emitted(ctx, e);
      }
      if blank == |trimmed| {
        assert NextParagraph(trimmed) == "";
        return;
      }
      trimmed := TrimLeft(trimmed[blank + 2..], '\n');
    }
  }

  // ----- Whole index sets -----

  /** Lower-casing as far as ASCII words can tell: two non-ASCII letters have ASCII lower case. */
  function LowerChar(c: char): char {
    if 'A' <= c <= 'Z' then (c as int + 32) as char
    else if c == '\U{130}' then 'i'
    else if c == '\U{212A}' then 'k'
    else c
  }

  /** `word` occurs in the lower-cased `s`. */
  predicate ContainsFold(s: string, word: string) {
    || StartsFolded(s, word)
    || (s != "" && ContainsFold(s[1..], word))
  }

  predicate StartsFolded(s: string, word: string) {
    |word| <= |s| && forall j | 0 <= j < |word| :: LowerChar(s[j]) == word[j]
  }

  predicate IsSecurityIndex(name: string) {
    ContainsFold(name, "security")
  }

  predicate IsBackportsValue(value: string) {
    ContainsFold(value, "backports")
  }

  datatype PackageIndex = PackageIndex(name: string, data: string, priority: int, backports: bool)

  function ContextOf(name: string, priority: int, backports: bool, filter: Option<Filter>): Context {
    Context(IsSecurityIndex(name), NormalizedPriority(priority), backports || IsBackportsValue(name), filter)
  }

  function ParseIndexes(indexes: seq<PackageIndex>, filter: Option<Filter>): seq<AvailablePackage> {
    if indexes == [] then []
    else
      var last := indexes[|indexes| - 1];
      ParseIndexes(indexes[..|indexes| - 1], filter)
        + BytesParse(ContextOf(last.name, last.priority, last.backports, filter), last.data)
  }

  method ParseAvailablePackages(indexes: seq<PackageIndex>, filter: Option<Filter>) returns (result: seq<AvailablePackage>)
    ensures result == ParseIndexes(indexes, filter)
  {
    result := [];
    for i := 0 to |indexes|
      invariant result == ParseIndexes(indexes[..i], filter)
    {
      assert indexes[..i + 1][..i] == indexes[..i];
      var index := indexes[i];
      var packages := ParseIndexBytes(ContextOf(index.name, index.priority, index.backports, filter), index.data);
      result := result + packages;
    }
    assert indexes[..|indexes|] == indexes;
  }

  /** Opening a stream fails, or yields a reader whose closing may fail. */
  datatype StreamSource = OpenFails | Opens(reader: Reader, closeFails: bool)

  datatype PackageIndexStream = PackageIndexStream(name: string, priority: int, backports: bool, source: StreamSource)

  function ParseSource(ctx: Context, source: StreamSource): Result<seq<AvailablePackage>> {
    if source.OpenFails? then ReadError
    else
      var parsed := StreamParse(ctx, source.reader);
      if parsed.Ok? && source.closeFails then ParseError else parsed
  }

  function ParseStreams(streams: seq<PackageIndexStream>, filter: Option<Filter>): Result<seq<AvailablePackage>> {
    if streams == [] then Ok([])
    else
      var last, before := streams[|streams| - 1], ParseStreams(streams[..|streams| - 1], filter);
      if !before.Ok? then before
      else
        var parsed := ParseSource(ContextOf(last.name, last.priority, last.backports, filter), last.source);
        if parsed.Ok? then Ok(before.value + parsed.value) else parsed
  }

  lemma {:induction false} FirstFailureDecides(streams: seq<PackageIndexStream>, filter: Option<Filter>, n: nat)
    requires n <= |streams|
    requires !ParseStreams(streams[..n], filter).Ok?
    ensures ParseStreams(streams, filter) == ParseStreams(streams[..n], filter)
    decreases |streams|
  {
    if n == |streams| {
      assert streams[..n] == streams;
    } else {
      assert streams[..|streams| - 1][..n] == streams[..n];
      FirstFailureDecides(streams[..|streams| - 1], filter, n);
    }
  }

  method ParseAvailablePackagesFromStreams(streams: seq<PackageIndexStream>, filter: Option<Filter>)
    returns (result: Result<seq<AvailablePackage>>)
    ensures result == ParseStreams(streams, filter)
  {
    hide ContextOf, StreamParse;
    var packages: seq<AvailablePackage> := [];
    for i := 0 to |streams|
      invariant ParseStreams(streams[..i], filter) == Ok(packages)
    {
      assert streams[..i + 1][..i] == streams[..i];
      var index := streams[i];
      var ctx := ContextOf(index.name, index.priority, index.backports, filter);
      if index.source.OpenFails? {
        FirstFailureDecides(streams, filter, i + 1);
        return ReadError;
      }
      var parsed := ParseAvailablePackageReader(ctx, index.source.reader);
      if !parsed.Ok? {
        FirstFailureDecides(streams, filter, i + 1);
        return parsed;
      }
      if index.source.closeFails {
        FirstFailureDecides(streams, filter, i + 1);
        return ParseError;
      }
      packages := packages + parsed.value;
    }
    assert streams[..|streams|] == streams;
    return Ok(packages);
  }
}
