/** The dpkg status database: a third parser for the same stanzas, and what it reads. */
module StatusDatabases {
  import opened Text
  import opened Packages
  import opened Versions
  import opened Whitespace
  import opened PackageIndexes
  import opened EarlyExits
  import opened ParserLaws
  import opened Deb822Texts

  // ----- Fields of one stanza -----

  /** All fields of the remaining text; a continuation line extends the field read last. */
  function Deb822(entry: string, current: string, fields: map<string, string>): map<string, string>
    requires current != "" ==> current in fields
    decreases |entry|
  {
    if entry == "" then fields
    else
      var line, rest := FirstLine(entry), AfterLine(entry);
      if IsContinuation(line) then
        Deb822(rest, current, if current == "" then fields else fields[current := fields[current] + "\n" + TrimSpace(line)])
      else if IsField(line) then
        var key := FieldKey(line, true);
        Deb822(rest, key, fields[key := FieldValue(line)])
      else Deb822(rest, current, fields)
  }

  lemma Deb822End(current: string, fields: map<string, string>)
    requires current != "" ==> current in fields
    ensures Deb822("", current, fields) == fields
  {
  }

  method ParseDeb822Fields(entry: string) returns (fields: map<string, string>)
    ensures fields == Deb822(entry, "", map[])
  {
    hide TrimSpace;
    fields := map[];
    var current := "";
    var rest := entry;
    while rest != ""
      invariant current != "" ==> current in fields
      invariant Deb822(rest, current, fields) == Deb822(entry, "", map[])
      decreases |rest|
    {
      var line := FirstLine(rest);
      rest := AfterLine(rest);
      if line == "" {
        continue;
      }
      if line[0] == ' ' || line[0] == '\t' {
        if current != "" {
          fields := fields[current := fields[current] + "\n" + TrimSpace(line)];
        }
        continue;
      }
      var colon := IndexOf(line, ':');
      if colon == |line| {
        continue;
      }
      current := TrimSpace(line[..colon]);
      fields := fields[current := TrimSpace(line[colon + 1..])];
    }
    Deb822End(current, fields);
  }

  function Field(fields: map<string, string>, key: string): string {
    if key in fields then fields[key] else ""
  }

  // ----- The database -----

  /** The words between white space. */
  function Words(s: string): seq<string>
    decreases |s|
  {
    if s == "" then []
    else if IsSpace(s[0]) then Words(s[1..])
    else [FirstWord(s)] + Words(s[|FirstWord(s)|..])
  }

  function FirstWord(s: string): (w: string)
    ensures |w| <= |s| && w == s[..|w|]
    ensures s != "" && !IsSpace(s[0]) ==> w != ""
  {
    if s == "" || IsSpace(s[0]) then "" else [s[0]] + FirstWord(s[1..])
  }

  /** `strings.Split(s, "\n\n")`. */
  function SplitBlank(s: string): seq<string>
    decreases |s|
  {
    var i := BlankLine(s);
    if i == |s| then [s] else [s[..i]] + SplitBlank(s[i + 2..])
  }

  function SplitParagraphs(text: string): seq<string> {
    if TrimSpace(text) == "" then [] else SplitBlank(TrimSpace(text))
  }

  function Record(fields: map<string, string>): seq<InstalledPackage> {
    var name := Field(fields, "Package");
    if name == "" then []
    else [InstalledPackage(name, Field(fields, "Architecture"), Field(fields, "Version"), Words(Field(fields, "Status")))]
  }

  function Records(paragraphs: seq<string>): seq<InstalledPackage> {
    if paragraphs == [] then []
    else Records(paragraphs[..|paragraphs| - 1]) + Record(Deb822(paragraphs[|paragraphs| - 1], "", map[]))
  }

  method ParseInstalledPackages(text: string) returns (result: seq<InstalledPackage>)
    ensures result == Records(SplitParagraphs(text))
  {
    hide SplitParagraphs, Deb822, Words;
    var paragraphs := SplitParagraphs(text);
    result := [];
    for i := 0 to |paragraphs|
      invariant result == Records(paragraphs[..i])
    {
      assert paragraphs[..i + 1][..i] == paragraphs[..i];
      var fields := ParseDeb822Fields(paragraphs[i]);
      var pkg := InstalledPackage(Field(fields, "Package"), Field(fields, "Architecture"), Field(fields, "Version"),
                                  Words(Field(fields, "Status")));
      if pkg.name == "" {
        continue;
      }
      result := result + [pkg];
    }
    assert paragraphs[..|paragraphs|] == paragraphs;
  }

  /** Text without a single record is an error, unless it is blank. */
  function StrictRecords(text: string): Option<seq<InstalledPackage>> {
    var records := Records(SplitParagraphs(text));
    if TrimSpace(text) != "" && records == [] then None else Some(records)
  }

  method ParseInstalledPackagesStrict(text: string) returns (result: Option<seq<InstalledPackage>>)
    ensures result == StrictRecords(text)
  {
    var installed := ParseInstalledPackages(text);
    return if TrimSpace(text) != "" && |installed| == 0 then None else Some(installed);
  }

  // ----- Agreement with the index parsers -----

  /** No continuation line extends a field the index parsers know. */
  predicate Uncontinued(p: string, current: string)
    decreases |p|
  {
    p != "" ==>
      var line := FirstLine(p);
      && (IsContinuation(line) ==> !IsIndexField(current))
      && Uncontinued(AfterLine(p), if IsField(line) then FieldKey(line, true) else current)
  }

  /** The map holds exactly what the entry holds. */
  predicate Mirrors(fields: map<string, string>, e: Entry) {
    && Field(fields, "Package") == e.name
    && Field(fields, "Architecture") == e.architecture
    && Field(fields, "Version") == e.version
  }

  /** On name, architecture and version the map-building parser reads what the index parsers read,
      as long as none of these fields is continued; repeated fields are no obstacle here. */
  lemma {:induction false} FieldMapAgrees(p: string, current: string, fields: map<string, string>, e: Entry)
    requires current != "" ==> current in fields
    requires Mirrors(fields, e) && Uncontinued(p, current)
    ensures Mirrors(Deb822(p, current, fields), AllFields(p, e, true))
    decreases |p|
  {
    hide TrimSpace, FirstLine, AfterLine;
    if p != "" {
      var line, rest := FirstLine(p), AfterLine(p);
      if IsContinuation(line) {
        var longer := if current == "" then fields else fields[current := fields[current] + "\n" + TrimSpace(line)];
        FieldMapAgrees(rest, current, longer, e);
      } else if IsField(line) {
        var key := FieldKey(line, true);
        FieldMapAgrees(rest, key, fields[key := FieldValue(line)], ReadLine(e, line, true));
      } else {
        FieldMapAgrees(rest, current, fields, e);
      }
    }
  }

  // ----- What the lines of a stanza say -----

  /** What continuation lines before the next field add to a value. */
  function Continued(ls: seq<Line>): string {
    if ls == [] || ls[0].FieldLine? then ""
    else (if IsContinuation(ls[0].text) then "\n" + TrimSpace(ls[0].text) else "") + Continued(ls[1..])
  }

  /** The whole value of the first field with this key, continuation lines included. */
  function FullValue(ls: seq<Line>, key: string): string {
    if ls == [] then ""
    else if ls[0].FieldLine? && ls[0].key == key then ls[0].value + Continued(ls[1..])
    else FullValue(ls[1..], key)
  }

  /** The fields after one more line, and the field that a continuation line would extend. */
  function StepMap(l: Line, current: string, fields: map<string, string>): (string, map<string, string>)
    requires current != "" ==> current in fields
  {
    if l.FieldLine? then (l.key, fields[l.key := l.value])
    else if IsContinuation(l.text) && current != "" then
      (current, fields[current := fields[current] + "\n" + TrimSpace(l.text)])
    else (current, fields)
  }

  lemma LineIsMapped(l: Line, rest: string, current: string, fields: map<string, string>)
    requires PlainLine(l) && (current != "" ==> current in fields)
    ensures var (next, more) := StepMap(l, current, fields);
            && (next != "" ==> next in more)
            && Deb822(LineText(l), current, fields) == more
            && Deb822(LineText(l) + ("\n" + rest), current, fields) == Deb822(rest, next, more)
  {
    LineLines(l, rest);
    LineIsOneLine(l);
    var (next, more) := StepMap(l, current, fields);
    Deb822End(next, more);
    Deb822End(current, fields);
    if l.FieldLine? { FieldParts(l); } else { OtherIsNoField(l); }
    hide LineText, FirstLine, AfterLine, FieldKey, FieldValue, IsField, PlainLine, TrimSpace;
  }

  /** The value of `key` once the remaining lines are read. */
  function Said(ls: seq<Line>, current: string, fields: map<string, string>, key: string): string {
    if CountOf(ls, key) == 1 then FullValue(ls, key)
    else if current == key then Field(fields, key) + Continued(ls)
    else Field(fields, key)
  }

  lemma SaidStep(ls: seq<Line>, current: string, fields: map<string, string>, key: string)
    requires ls != [] && (current != "" ==> current in fields) && key != "" && CountOf(ls, key) <= 1
    ensures var (next, more) := StepMap(ls[0], current, fields);
            Said(ls, current, fields, key) == Said(ls[1..], next, more, key) && CountOf(ls[1..], key) <= 1
  {
    hide TrimSpace, IsContinuation;
    var l, rest := ls[0], ls[1..];
    if l.FieldLine? {
      assert Field(fields, key) + "" == Field(fields, key);
    } else if IsContinuation(l.text) && current == key {
      Associates(fields[key], "\n" + TrimSpace(l.text), Continued(rest));
      Associates(fields[key], "\n", TrimSpace(l.text));
    } else {
      assert "" + Continued(rest) == Continued(rest);
    }
  }

  lemma Associates(a: string, b: string, c: string)
    ensures (a + b) + c == a + (b + c)
  {
  }

  lemma SaidEnd(current: string, fields: map<string, string>, key: string)
    ensures Said([], current, fields, key) == Field(fields, key)
  {
    assert Field(fields, key) + "" == Field(fields, key);
  }

  lemma {:induction false} FieldsSay(ls: seq<Line>, current: string, fields: map<string, string>, key: string)
    requires AllPlain(ls) && (current != "" ==> current in fields) && key != ""
    requires CountOf(ls, key) <= 1
    ensures Field(Deb822(LinesText(ls), current, fields), key) == Said(ls, current, fields, key)
  {
    hide Said, Field;
    if ls == [] {
      Deb822End(current, fields);
      SaidEnd(current, fields, key);
    } else {
      LineIsMapped(ls[0], LinesText(ls[1..]), current, fields);
      var (next, more) := StepMap(ls[0], current, fields);
      KeyIsNotEmpty(ls[0]);
      SaidStep(ls, current, fields, key);
      hide LineText, Deb822, PlainLine, StepMap, CountOf;
      if |ls| == 1 {
        SaidEnd(next, more, key);
        assert ls[1..] == [];
      } else {
        FieldsSay(ls[1..], next, more, key);
      }
    }
  }

  lemma KeyIsNotEmpty(l: Line)
    requires PlainLine(l)
    ensures l.FieldLine? ==> l.key != ""
  {
  }

  lemma {:induction false} NoFullValue(ls: seq<Line>, key: string)
    requires CountOf(ls, key) == 0
    ensures FullValue(ls, key) == ""
  {
    if ls != [] { NoFullValue(ls[1..], key); }
  }

  /** Reading a stanza yields the whole value of each field it holds once, and nothing for others. */
  lemma StanzaSays(ls: seq<Line>, key: string)
    requires AllPlain(ls) && key != "" && CountOf(ls, key) <= 1
    ensures Field(Deb822(LinesText(ls), "", map[]), key) == FullValue(ls, key)
  {
    FieldsSay(ls, "", map[], key);
    hide Deb822, LinesText;
    if CountOf(ls, key) == 0 { NoFullValue(ls, key); }
  }

  // ----- Words -----

  predicate PlainWord(w: string) {
    w != "" && forall i | 0 <= i < |w| :: !IsSpace(w[i])
  }

  /** Words with white space before each and after the last. */
  function Spaced(gaps: seq<string>, words: seq<string>, end: string): string
    requires |gaps| == |words|
  {
    if words == [] then end else gaps[0] + (words[0] + Spaced(gaps[1..], words[1..], end))
  }

  /** Gaps are white space, and only the first one may be missing. */
  predicate AreGaps(gaps: seq<string>) {
    (forall g | g in gaps :: AllSpace(g)) && forall i | 0 < i < |gaps| :: gaps[i] != ""
  }

  lemma {:induction false} FirstWordIs(w: string, rest: string)
    requires PlainWord(w) && (rest == "" || IsSpace(rest[0]))
    ensures FirstWord(w + rest) == w
  {
    assert (w + rest)[1..] == w[1..] + rest;
    if |w| > 1 {
      FirstWordIs(w[1..], rest);
      assert w == [w[0]] + w[1..];
    } else {
      assert w[1..] + rest == rest && w == [w[0]];
    }
  }

  lemma {:induction false} WordsAfterSpace(g: string, s: string)
    requires AllSpace(g)
    ensures Words(g + s) == Words(s)
  {
    if g == "" {
      assert g + s == s;
    } else {
      assert (g + s)[1..] == g[1..] + s;
      WordsAfterSpace(g[1..], s);
    }
  }

  lemma WordsStep(w: string, rest: string)
    requires PlainWord(w) && (rest == "" || IsSpace(rest[0]))
    ensures Words(w + rest) == [w] + Words(rest)
  {
    FirstWordIs(w, rest);
    assert (w + rest)[0] == w[0];
    hide FirstWord, IsSpace;
    assert (w + rest)[|w|..] == rest;
  }

  /** The words of spaced words are these words. */
  lemma {:induction false} WordsOfSpaced(gaps: seq<string>, words: seq<string>, end: string)
    requires |gaps| == |words| && AreGaps(gaps) && AllSpace(end)
    requires forall w | w in words :: PlainWord(w)
    ensures Words(Spaced(gaps, words, end)) == words
  {
    if words == [] {
      assert end + "" == end;
      WordsAfterSpace(end, "");
    } else {
      var rest := Spaced(gaps[1..], words[1..], end);
      assert AreGaps(gaps[1..]);
      SpacedStarts(gaps[1..], words[1..], end);
      WordsAfterSpace(gaps[0], words[0] + rest);
      hide Words, IsSpace, PlainWord;
      WordsStep(words[0], rest);
      WordsOfSpaced(gaps[1..], words[1..], end);
      assert words == [words[0]] + words[1..];
    }
  }

  lemma SpacedStarts(gaps: seq<string>, words: seq<string>, end: string)
    requires |gaps| == |words| && AllSpace(end)
    requires forall g | g in gaps :: AllSpace(g) && g != ""
    ensures var s := Spaced(gaps, words, end); s == "" || IsSpace(s[0])
  {
    if gaps != [] {
      assert AllSpace(gaps[0]);
    }
  }

  // ----- Reading back a written database -----

  ghost predicate StatusStanza(ls: seq<Line>) {
    PlainStanza(ls) && IndexFieldsOnce(ls) && CountOf(ls, "Status") <= 1
  }

  ghost predicate StatusFile(stanzas: seq<seq<Line>>) {
    PlainFile(stanzas) && forall ls | ls in stanzas :: StatusStanza(ls)
  }

  /** The record a reader of the database expects from a stanza: none without a name. */
  function ExpectedRecord(ls: seq<Line>): seq<InstalledPackage> {
    if FullValue(ls, "Package") == "" then []
    else [InstalledPackage(FullValue(ls, "Package"), FullValue(ls, "Architecture"), FullValue(ls, "Version"),
                           Words(FullValue(ls, "Status")))]
  }

  function ExpectedRecords(stanzas: seq<seq<Line>>): seq<InstalledPackage> {
    if stanzas == [] then [] else ExpectedRecord(stanzas[0]) + ExpectedRecords(stanzas[1..])
  }

  lemma StatusStanzaIsRead(ls: seq<Line>)
    requires StatusStanza(ls)
    ensures Record(Deb822(LinesText(ls), "", map[])) == ExpectedRecord(ls)
    ensures Solid(LinesText(ls)) && StartsSolid(LinesText(ls))
  {
    StanzaSays(ls, "Package");
    StanzaSays(ls, "Architecture");
    StanzaSays(ls, "Version");
    StanzaSays(ls, "Status");
    StanzaIsSolid(ls);
    hide LinesText, Deb822, Solid, StartsSolid, FullValue, Words;
  }

  lemma SplitBlankStep(s: string, t: string)
    requires Solid(s)
    ensures SplitBlank(s) == [s]
    ensures SplitBlank(s + ("\n\n" + t)) == [s] + SplitBlank(t)
  {
    BlankLineIs(s, t);
    hide BlankLine, Solid;
    var all := s + ("\n\n" + t);
    assert all[..|s|] == s && all[|s| + 2..] == t && s[..|s|] == s;
    assert SplitBlank(all) == [all[..|s|]] + SplitBlank(all[|s| + 2..]);
  }

  lemma {:induction false} RecordsAppend(a: seq<string>, b: seq<string>)
    ensures Records(a + b) == Records(a) + Records(b)
  {
    hide Record, Deb822;
    if b == [] {
      assert a + b == a;
    } else {
      assert (a + b)[..|a + b| - 1] == a + b[..|b| - 1];
      RecordsAppend(a, b[..|b| - 1]);
    }
  }

  lemma RecordsOfOne(s: string)
    ensures Records([s]) == Record(Deb822(s, "", map[]))
  {
    assert [s][..0] == [];
  }

  lemma {:induction false} WrittenStatusSplits(stanzas: seq<seq<Line>>)
    requires stanzas != [] && forall ls | ls in stanzas :: StatusStanza(ls)
    ensures Records(SplitBlank(Written(stanzas))) == ExpectedRecords(stanzas)
  {
    hide StatusStanza, LinesText, Record, Records, SplitBlank, Solid, Deb822, ExpectedRecord;
    var ls := stanzas[0];
    StatusStanzaIsRead(ls);
    RecordsOfOne(LinesText(ls));
    if |stanzas| == 1 {
      SplitBlankStep(LinesText(ls), "");
      assert ExpectedRecords(stanzas[1..]) == [];
    } else {
      WrittenStatusSplits(stanzas[1..]);
      var t := Written(stanzas[1..]);
      SplitBlankStep(LinesText(ls), t);
      RecordsAppend([LinesText(ls)], SplitBlank(t));
    }
  }

  /** Reading back a written status database yields exactly its named records, in order, with their
      whole values; stanzas without any name are an error. */
  lemma StatusReadBack(stanzas: seq<seq<Line>>, tail: string)
    requires StatusFile(stanzas) && AllSpace(tail)
    ensures StrictRecords(Written(stanzas) + tail)
         == if stanzas != [] && ExpectedRecords(stanzas) == [] then None else Some(ExpectedRecords(stanzas))
  {
    hide StatusStanza, PlainStanza, LinesText, Records, SplitBlank, ExpectedRecord;
    if stanzas == [] {
      assert Written([]) + tail == tail;
      AllSpaceTrims(tail);
      assert Records([]) == [] by { NoRecords(); }
    } else {
      WrittenStatusSplits(stanzas);
      WrittenIsTrimmed(stanzas);
      TrimmedStays(Written(stanzas), tail);
      hide TrimSpace, Written;
    }
  }

  lemma NoRecords()
    ensures Records([]) == []
  {
  }
}
