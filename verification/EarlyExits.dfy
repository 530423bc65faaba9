/** What giving up early and stopping early do to a paragraph, and exactly when they change nothing. */
module EarlyExits {
  import opened Packages
  import opened Text
  import opened Versions
  import opened PackageIndexes
  import opened Whitespace

  // ----- Paragraphs without repeated fields -----

  /** Field lines of `p` whose trimmed key is `key`. */
  function Occurrences(p: string, key: string): nat
    decreases |p|
  {
    if p == "" then 0
    else (if IsField(FirstLine(p)) && FieldKey(FirstLine(p), true) == key then 1 else 0) + Occurrences(AfterLine(p), key)
  }

  predicate UniqueFields(p: string) {
    Occurrences(p, "Package") <= 1 && Occurrences(p, "Architecture") <= 1 && Occurrences(p, "Version") <= 1
  }

  /** The entry after reading every line of `p`. */
  function AllFields(p: string, e: Entry, trim: bool): Entry
    decreases |p|
  {
    if p == "" then e else AllFields(AfterLine(p), ReadLine(e, FirstLine(p), trim), trim)
  }

  lemma {:induction false} NameSettled(p: string, e: Entry)
    requires Occurrences(p, "Package") == 0
    ensures AllFields(p, e, true).name == e.name
    decreases |p|
  {
    if p != "" { NameSettled(AfterLine(p), ReadLine(e, FirstLine(p), true)); }
  }

  lemma {:induction false} ArchitectureSettled(p: string, e: Entry)
    requires Occurrences(p, "Architecture") == 0
    ensures AllFields(p, e, true).architecture == e.architecture
    decreases |p|
  {
    if p != "" { ArchitectureSettled(AfterLine(p), ReadLine(e, FirstLine(p), true)); }
  }

  lemma {:induction false} VersionSettled(p: string, e: Entry)
    requires Occurrences(p, "Version") == 0
    ensures AllFields(p, e, true).version == e.version
    decreases |p|
  {
    if p != "" { VersionSettled(AfterLine(p), ReadLine(e, FirstLine(p), true)); }
  }

  /** No field is both known already and still to come, and none comes twice. */
  predicate OneEach(p: string, e: Entry) {
    && UniqueFields(p)
    && (e.name != "" ==> Occurrences(p, "Package") == 0)
    && (e.architecture != "" ==> Occurrences(p, "Architecture") == 0)
    && (e.version != "" ==> Occurrences(p, "Version") == 0)
  }

  /** Giving up early and stopping early never change what a paragraph contributes. */
  lemma {:induction false} EarlyExitsAreSound(ctx: Context, p: string, e: Entry)
    requires OneEach(p, e)
    ensures Emitted(ctx, Fields(ctx.filter, p, e)) == Emitted(ctx, AllFields(p, e, true))
    decreases |p|
  {
    hide TrimSpace, IndexOf, FirstLine, AfterLine, IsField;
    if p != "" {
      var line, rest := FirstLine(p), AfterLine(p);
      var next := ReadLine(e, line, true);
      if IsField(line) && Rejects(ctx.filter, e, FieldKey(line, true), FieldValue(line)) {
        NameSettled(rest, next);
        if FieldKey(line, true) == "Architecture" {
          ArchitectureSettled(rest, next);
        }
      } else if IsField(line) && Complete(next) {
        NameSettled(rest, next);
        ArchitectureSettled(rest, next);
        VersionSettled(rest, next);
      } else {
        EarlyExitsAreSound(ctx, rest, next);
      }
    }
  }

  // ----- Every paragraph -----

  /** The entry yields a package, unless a filter objects. */
  predicate Shown(e: Entry) {
    e.name != "" && e.version != ""
  }

  /** The two entries yield the same package or none. */
  predicate SameEmission(a: Entry, b: Entry) {
    && (Shown(a) <==> Shown(b))
    && (Shown(a) ==> a.name == b.name && ArchOrAll(a.architecture) == ArchOrAll(b.architecture) && a.version == b.version)
  }

  /** A field read when `e` is known gives no filter that allows `last` a reason to give up. */
  predicate Harmless(e: Entry, key: string, value: string, last: Entry) {
    Shown(last) ==>
      && (key == "Package" ==> value == last.name)
      && (key == "Architecture" && e.name != "" ==> ArchOrAll(value) == ArchOrAll(last.architecture))
  }

  /** One scan without any filter: up to the line where all three fields are known, every field is
      harmless for `last`, and where the scan stops it yields what `last` yields. */
  predicate Steady(p: string, e: Entry, last: Entry)
    decreases |p|
  {
    if p == "" then SameEmission(e, last)
    else
      var line, next := FirstLine(p), ReadLine(e, FirstLine(p), true);
      && (IsField(line) ==> Harmless(e, FieldKey(line, true), FieldValue(line), last))
      && if IsField(line) && Complete(next) then SameEmission(next, last) else Steady(AfterLine(p), next, last)
  }

  lemma SameEmissionSeen(ctx: Context, a: Entry, b: Entry)
    requires SameEmission(a, b)
    ensures Emitted(ctx, a) == Emitted(ctx, b)
  {
  }

  lemma RejectedIsEmpty(ctx: Context, e: Entry, key: string, value: string, last: Entry)
    requires Shown(last) ==> e.name == "" || e.name == last.name
    requires Harmless(e, key, value, last) && Rejects(ctx.filter, e, key, value)
    ensures Emitted(ctx, last) == []
  {
  }

  lemma {:induction false} SteadyIsSound(ctx: Context, p: string, e: Entry, last: Entry)
    requires Shown(last) ==> e.name == "" || e.name == last.name
    requires Steady(p, e, last)
    ensures Emitted(ctx, Fields(ctx.filter, p, e)) == Emitted(ctx, last)
    decreases |p|
  {
    hide TrimSpace, FirstLine, AfterLine, IsField, Emitted, FieldKey, FieldValue, SameEmission;
    if p == "" {
      SameEmissionSeen(ctx, e, last);
    } else {
      var line, next := FirstLine(p), ReadLine(e, FirstLine(p), true);
      if IsField(line) && Rejects(ctx.filter, e, FieldKey(line, true), FieldValue(line)) {
        RejectedIsEmpty(ctx, e, FieldKey(line, true), FieldValue(line), last);
        BlankIsEmpty(ctx);
      } else if IsField(line) && Complete(next) {
        SameEmissionSeen(ctx, next, last);
      } else {
        SteadyIsSound(ctx, AfterLine(p), next, last);
      }
    }
  }

  lemma BlankIsEmpty(ctx: Context)
    ensures Emitted(ctx, BLANK) == []
  {
  }

  /** The filter that tells `last` from everything else, or none when `last` yields nothing. */
  function Probe(last: Entry): Context {
    Context(false, 0, false, if Shown(last) then Some(map[last.name := {ArchOrAll(last.architecture)}]) else None)
  }

  lemma ProbeTells(e: Entry, last: Entry)
    ensures Emitted(Probe(last), e) == Emitted(Probe(last), last) ==> SameEmission(e, last)
    ensures Emitted(Probe(last), BLANK) == Emitted(Probe(last), last) ==> !Shown(last)
  {
  }

  lemma ProbeRejects(e: Entry, key: string, value: string, last: Entry)
    requires Shown(last) ==> e.name == "" || e.name == last.name
    ensures Rejects(Probe(last).filter, e, key, value) <==> !Harmless(e, key, value, last)
  {
  }

  lemma {:induction false} UnsteadyIsSeen(p: string, e: Entry, last: Entry)
    requires Shown(last) ==> e.name == "" || e.name == last.name
    requires !Steady(p, e, last)
    ensures Emitted(Probe(last), Fields(Probe(last).filter, p, e)) != Emitted(Probe(last), last)
    decreases |p|
  {
    hide TrimSpace, FirstLine, AfterLine, IsField, Emitted, FieldKey, FieldValue, SameEmission, Probe, Rejects;
    if p == "" {
      ProbeTells(e, last);
    } else {
      var line, next := FirstLine(p), ReadLine(e, FirstLine(p), true);
      if IsField(line) {
        ProbeRejects(e, FieldKey(line, true), FieldValue(line), last);
      }
      if IsField(line) && !Harmless(e, FieldKey(line, true), FieldValue(line), last) {
        ProbeTells(BLANK, last);
      } else if IsField(line) && Complete(next) {
        ProbeTells(next, last);
      } else {
        UnsteadyIsSeen(AfterLine(p), next, last);
      }
    }
  }

  /** Under every filter the paragraph parser yields what `last` yields, if and only if the scan is
      steady for `last`. */
  lemma CutsExactly(p: string, last: Entry)
    ensures (forall ctx :: EmittedFromParagraph(ctx, p) == Emitted(ctx, last)) <==> Steady(p, BLANK, last)
  {
    hide Emitted, Fields, Steady, EmittedFromParagraph;
    if Steady(p, BLANK, last) {
      forall ctx ensures EmittedFromParagraph(ctx, p) == Emitted(ctx, last) {
        ParagraphIsCut(ctx, p);
        SteadyIsSound(ctx, p, BLANK, last);
      }
    } else {
      ParagraphIsCut(Probe(last), p);
      UnsteadyIsSeen(p, BLANK, last);
    }
  }

  /** Skipping blank paragraphs makes no difference. */
  lemma ParagraphIsCut(ctx: Context, p: string)
    ensures EmittedFromParagraph(ctx, p) == Emitted(ctx, Fields(ctx.filter, p, BLANK))
  {
    if TrimSpace(p) == "" {
      TrimmedAwayIsSpace(p);
      hide Emitted;
      SpaceOnlyCut(ctx.filter, p);
      BlankIsEmpty(ctx);
    }
  }

  lemma {:induction false} SpaceOnlyCut(filter: Option<Filter>, p: string)
    requires AllSpace(p)
    ensures Fields(filter, p, BLANK) == BLANK
    decreases |p|
  {
    if p != "" {
      SpaceIsNoField(FirstLine(p));
      SpaceOnlyCut(filter, AfterLine(p));
    }
  }

  lemma SpaceIsNoField(line: string)
    requires AllSpace(line)
    ensures !IsField(line)
  {
    SpaceLacksColon(line);
  }

  /** Early rejection and early exit never show, against reading every line as the scanner does. */
  predicate ReadsAlike(p: string) {
    Steady(p, BLANK, AllFields(p, BLANK, false))
  }

  /** Early rejection and early exit never show, against cutting the paragraph without a filter. */
  predicate FiltersAlike(p: string) {
    Steady(p, BLANK, Fields(None, p, BLANK))
  }

  /** On one paragraph the two parsers agree under every filter if and only if it reads alike. */
  lemma StanzasAgreeExactly(p: string)
    ensures (forall ctx :: EmittedFromParagraph(ctx, p) == Emitted(ctx, AllFields(p, BLANK, false))) <==> ReadsAlike(p)
  {
    CutsExactly(p, AllFields(p, BLANK, false));
  }

  /** Whatever entry the paragraph is steady for, filtering it changes nothing. */
  lemma SteadyFiltersAlike(p: string, last: Entry)
    requires Steady(p, BLANK, last)
    ensures FiltersAlike(p)
  {
    hide Emitted, EmittedFromParagraph, Fields, Steady;
    var cut := Fields(None, p, BLANK);
    CutsExactly(p, last);
    CutsExactly(p, cut);
    forall ctx: Context ensures EmittedFromParagraph(ctx, p) == Emitted(ctx, cut) {
      ParagraphIsCut(ctx.(filter := None), p);
      SameEmissionOpen(ctx, cut, last);
    }
  }

  /** Filtering the cut of one paragraph is cutting it with the filter, under every filter, if and
      only if it filters alike. */
  lemma FilteringCutsExactly(p: string)
    ensures (forall ctx :: EmittedFromParagraph(ctx, p) == Emitted(ctx, Fields(None, p, BLANK))) <==> FiltersAlike(p)
  {
    CutsExactly(p, Fields(None, p, BLANK));
  }

  /** Paragraphs without repeated fields filter alike. */
  lemma UniqueFieldsFilterAlike(p: string)
    requires UniqueFields(p)
    ensures FiltersAlike(p)
  {
    hide Emitted, EmittedFromParagraph, Fields, Steady, AllFields, Occurrences;
    var last := AllFields(p, BLANK, true);
    forall ctx ensures EmittedFromParagraph(ctx, p) == Emitted(ctx, last) {
      ParagraphIsCut(ctx, p);
      EarlyExitsAreSound(ctx, p, BLANK);
    }
    CutsExactly(p, last);
    SteadyFiltersAlike(p, last);
  }

  /** Without a filter nothing but the package itself is seen. */
  lemma SameEmissionOpen(ctx: Context, a: Entry, b: Entry)
    requires Emitted(ctx.(filter := None), a) == Emitted(ctx.(filter := None), b)
    ensures Emitted(ctx, a) == Emitted(ctx, b)
  {
  }
}
