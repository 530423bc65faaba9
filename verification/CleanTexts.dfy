/** Status databases whose records leave the cache key unambiguous, told from their text. */
module CleanTexts {
  import opened Text
  import opened Packages
  import opened Whitespace
  import opened PackageIndexes
  import opened Sorting
  import opened Revisions
  import opened StatusDatabases

  /** No package or architecture field has a colon in its value. */
  predicate ColonFree(p: string)
    decreases |p|
  {
    p != "" ==>
      var line := FirstLine(p);
      && (IsField(line) && FieldKey(line, true) in ["Package", "Architecture"] ==> Lacks(FieldValue(line), ':'))
      && ColonFree(AfterLine(p))
  }

  /** Package, architecture and version are never continued, and the first two hold no colon. */
  predicate CleanText(text: string) {
    forall p | p in SplitParagraphs(text) :: Uncontinued(p, "") && ColonFree(p)
  }

  predicate CleanFields(fields: map<string, string>) {
    && Lacks(Field(fields, "Package"), ':') && Lacks(Field(fields, "Package"), '\n')
    && Lacks(Field(fields, "Architecture"), ':') && Lacks(Field(fields, "Architecture"), '\n')
    && Lacks(Field(fields, "Version"), '\n')
  }

  lemma SlicesLack(s: string, i: nat, c: char)
    requires i <= |s| && Lacks(s, c)
    ensures Lacks(s[..i], c) && Lacks(s[i..], c)
  {
  }

  lemma TrimLacks(s: string, c: char)
    requires Lacks(s, c)
    ensures Lacks(TrimSpace(s), c)
  {
    hide TrimLeftSpace, TrimRightSpace, AllSpace, IsSpace, Lacks;
    var body := TrimLeftSpace(s);
    TrimLeftCuts(s);
    SlicesLack(s, |s| - |body|, c);
    TrimRightCuts(body);
    SlicesLack(body, |TrimRightSpace(body)|, c);
  }

  /** A value ends with its line. */
  lemma ValueIsOneLine(p: string)
    requires IsField(FirstLine(p))
    ensures Lacks(FieldValue(FirstLine(p)), '\n')
  {
    var line := FirstLine(p);
    IndexOfLacks(p, '\n');
    hide TrimSpace, Lacks;
    SlicesLack(line, IndexOf(line, ':') + 1, '\n');
    TrimLacks(line[IndexOf(line, ':') + 1..], '\n');
  }

  lemma {:induction false} FieldsAreClean(p: string, current: string, fields: map<string, string>)
    requires current != "" ==> current in fields
    requires CleanFields(fields) && Uncontinued(p, current) && ColonFree(p)
    ensures CleanFields(Deb822(p, current, fields))
    decreases |p|
  {
    hide TrimSpace, FirstLine, AfterLine, IsField, FieldKey, FieldValue, Lacks;
    if p != "" {
      var line, rest := FirstLine(p), AfterLine(p);
      if IsContinuation(line) {
        FieldIsNoContinuationEither(line);
        var longer := if current == "" then fields else fields[current := fields[current] + "\n" + TrimSpace(line)];
        FieldsAreClean(rest, current, longer);
      } else if IsField(line) {
        ValueIsOneLine(p);
        FieldsAreClean(rest, FieldKey(line, true), fields[FieldKey(line, true) := FieldValue(line)]);
      } else {
        FieldsAreClean(rest, current, fields);
      }
    }
  }

  lemma FieldIsNoContinuationEither(line: string)
    requires IsContinuation(line)
    ensures !IsField(line)
  {
  }

  lemma {:induction false} RecordsAreClean(paragraphs: seq<string>)
    requires forall p | p in paragraphs :: Uncontinued(p, "") && ColonFree(p)
    ensures CleanInstalled(Records(paragraphs))
  {
    hide Deb822, Uncontinued, ColonFree, CleanKey;
    if paragraphs != [] {
      var init, p := paragraphs[..|paragraphs| - 1], paragraphs[|paragraphs| - 1];
      RecordsAreClean(init);
      RecordIsClean(p);
      CleanAppend(Records(init), Record(Deb822(p, "", map[])));
    }
  }

  lemma RecordIsClean(p: string)
    requires Uncontinued(p, "") && ColonFree(p)
    ensures CleanInstalled(Record(Deb822(p, "", map[])))
  {
    FieldsAreClean(p, "", map[]);
    var fields := Deb822(p, "", map[]);
    hide Deb822, Words, Lacks;
    forall pkg | pkg in Record(fields) ensures CleanInstalled([pkg]) {
      PackageIsClean(pkg);
    }
    assert Record(fields) == [] || Record(fields) == [Record(fields)[0]];
  }

  lemma PackageIsClean(pkg: InstalledPackage)
    requires CleanFields(map["Package" := pkg.name, "Architecture" := pkg.architecture, "Version" := pkg.version])
    ensures CleanInstalled([pkg])
  {
    FlatMapOne(KeysOf, pkg);
    hide FlatMap, IsInstalled;
  }

  lemma CleanAppend(a: seq<InstalledPackage>, b: seq<InstalledPackage>)
    requires CleanInstalled(a) && CleanInstalled(b)
    ensures CleanInstalled(a + b)
  {
    hide CleanKey, FlatMap;
    FlatMapAppend(KeysOf, a, b);
  }

  /** The records of a clean text are clean. */
  lemma CleanTextIsClean(text: string)
    requires CleanText(text) && StrictRecords(text).Some?
    ensures CleanInstalled(StrictRecords(text).value)
  {
    hide SplitParagraphs, Records, Uncontinued, ColonFree, CleanInstalled;
    RecordsAreClean(SplitParagraphs(text));
  }
}
