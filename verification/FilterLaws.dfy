/** Filtering an index by the installed packages changes no count. */
module FilterLaws {
  import opened Packages
  import opened Policy
  import opened Counting
  import opened CountingLaws
  import opened Text
  import opened Versions
  import opened PackageIndexes
  import opened EarlyExits
  import opened ParserLaws
  import opened Sorting

  /** The packages the filter lets through. */
  function Keep(filter: Filter, available: seq<AvailablePackage>): seq<AvailablePackage> {
    if available == [] then []
    else
      var last := available[|available| - 1];
      Keep(filter, available[..|available| - 1])
        + if FilterAllows(filter, last.name, last.architecture) then [last] else []
  }

  lemma {:induction false} KeepAppend(filter: Filter, a: seq<AvailablePackage>, b: seq<AvailablePackage>)
    ensures Keep(filter, a + b) == Keep(filter, a) + Keep(filter, b)
  {
    if b == [] {
      assert a + b == a;
    } else {
      assert (a + b)[..|a + b| - 1] == a + b[..|b| - 1];
      KeepAppend(filter, a, b[..|b| - 1]);
    }
  }

  lemma EmittedFilters(ctx: Context, e: Entry)
    requires ctx.filter.Some?
    ensures Emitted(ctx, e) == Keep(ctx.filter.value, Emitted(ctx.(filter := None), e))
  {
  }

  /** The scanner's filter is a filter on its result, on every input whatever its form. */
  lemma {:induction false} StreamFilters(ctx: Context, data: string, e: Entry)
    requires ctx.filter.Some?
    ensures Stream(ctx, data, e) == Keep(ctx.filter.value, Stream(ctx.(filter := None), data, e))
    decreases |data|
  {
    hide Emitted, ReadLine, FirstLine, DropCR, Keep;
    var open := ctx.(filter := None);
    EmittedFilters(ctx, e);
    if data != "" {
      var line, rest := DropCR(FirstLine(data)), AfterLine(data);
      if line == "" {
        StreamFilters(ctx, rest, BLANK);
        KeepAppend(ctx.filter.value, Emitted(open, e), Stream(open, rest, BLANK));
      } else {
        StreamFilters(ctx, rest, ReadLine(e, line, false));
      }
    }
  }

  /** The same of the paragraph parser, provided every paragraph filters alike. */
  lemma ParagraphsFilter(ctx: Context, trimmed: string)
    requires ctx.filter.Some?
    requires forall p | p in Paragraphs(trimmed) :: FiltersAlike(p)
    ensures EmittedFromParagraphs(ctx, trimmed)
         == Keep(ctx.filter.value, EmittedFromParagraphs(ctx.(filter := None), trimmed))
  {
    hide Paragraphs, EmittedFromParagraphs, FiltersAlike, Keep, Kept, Emitted, Fields, EmittedFromParagraph;
    var ps := Paragraphs(trimmed);
    ParagraphsAreKept(ctx, trimmed);
    forall p | p in ps ensures Cut(ctx)(p) == Kept(ctx)(p) {
      KeptIsOpenCut(ctx, p);
      FilteringCutsExactly(p);
    }
    FlatMapAgree(Cut(ctx), Kept(ctx), ps);
  }

  /** What filtering afterwards keeps of one paragraph. */
  function Kept(ctx: Context): string -> seq<AvailablePackage>
    requires ctx.filter.Some?
  {
    p => Keep(ctx.filter.value, EmittedFromParagraph(ctx.(filter := None), p))
  }

  lemma KeptIsOpenCut(ctx: Context, p: string)
    requires ctx.filter.Some?
    ensures Kept(ctx)(p) == Emitted(ctx, Fields(None, p, BLANK))
  {
    hide Emitted, Fields, EmittedFromParagraph, Keep;
    ParagraphIsCut(ctx.(filter := None), p);
    EmittedFilters(ctx, Fields(None, p, BLANK));
  }

  lemma {:induction false} KeepFlatMap(ctx: Context, ps: seq<string>)
    requires ctx.filter.Some?
    ensures Keep(ctx.filter.value, FlatMap(Cut(ctx.(filter := None)), ps)) == FlatMap(Kept(ctx), ps)
  {
    hide Keep, EmittedFromParagraph;
    var open := ctx.(filter := None);
    if ps == [] {
      KeepNothing(ctx.filter.value);
    } else {
      var init, last := ps[..|ps| - 1], ps[|ps| - 1];
      KeepFlatMap(ctx, init);
      KeepAppend(ctx.filter.value, FlatMap(Cut(open), init), Cut(open)(last));
    }
  }

  lemma KeepNothing(filter: Filter)
    ensures Keep(filter, []) == []
  {
  }

  lemma ParagraphsAreKept(ctx: Context, trimmed: string)
    requires ctx.filter.Some?
    ensures EmittedFromParagraphs(ctx, trimmed) == FlatMap(Cut(ctx), Paragraphs(trimmed))
    ensures Keep(ctx.filter.value, EmittedFromParagraphs(ctx.(filter := None), trimmed))
         == FlatMap(Kept(ctx), Paragraphs(trimmed))
  {
    hide Keep, Cut, Kept, EmittedFromParagraphs, Paragraphs;
    CutParagraphs(ctx, trimmed);
    CutParagraphs(ctx.(filter := None), trimmed);
    KeepFlatMap(ctx, Paragraphs(trimmed));
  }

  lemma CutsAtMostKept(ctx: Context, p: string)
    requires ctx.filter.Some?
    ensures |Cut(ctx)(p)| <= |Kept(ctx)(p)|
  {
    hide Fields, EmittedFromParagraph, Emitted, Keep, Kept;
    ParagraphIsCut(ctx, p);
    KeptIsOpenCut(ctx, p);
    FilteredCutIsOpenOrBlank(ctx.filter, p, BLANK);
    BlankIsEmpty(ctx);
  }

  /** Cutting with a filter is filtering the cut, under every filter, if and only if every paragraph
      filters alike. No form is asked of the buffer. */
  lemma ParagraphsFilterExactly(trimmed: string)
    ensures (forall ctx: Context | ctx.filter.Some? ::
               EmittedFromParagraphs(ctx, trimmed)
                 == Keep(ctx.filter.value, EmittedFromParagraphs(ctx.(filter := None), trimmed)))
       <==> forall p | p in Paragraphs(trimmed) :: FiltersAlike(p)
  {
    hide Paragraphs, EmittedFromParagraphs, FiltersAlike, Keep, EmittedFromParagraph, Fields, Emitted;
    if forall p | p in Paragraphs(trimmed) :: FiltersAlike(p) {
      forall ctx: Context | ctx.filter.Some?
        ensures EmittedFromParagraphs(ctx, trimmed)
             == Keep(ctx.filter.value, EmittedFromParagraphs(ctx.(filter := None), trimmed))
      {
        ParagraphsFilter(ctx, trimmed);
      }
    }
    if forall ctx: Context | ctx.filter.Some? ::
         EmittedFromParagraphs(ctx, trimmed) == Keep(ctx.filter.value, EmittedFromParagraphs(ctx.(filter := None), trimmed))
    {
      forall p | p in Paragraphs(trimmed) ensures FiltersAlike(p) {
        forall ctx: Context ensures EmittedFromParagraph(ctx, p) == Emitted(ctx, Fields(None, p, BLANK)) {
          if ctx.filter.None? {
            ParagraphIsCut(ctx, p);
          } else {
            PieceIsKept(ctx, trimmed, p);
          }
        }
        FilteringCutsExactly(p);
      }
    }
  }

  lemma PieceIsKept(ctx: Context, trimmed: string, p: string)
    requires ctx.filter.Some? && p in Paragraphs(trimmed)
    requires EmittedFromParagraphs(ctx, trimmed)
          == Keep(ctx.filter.value, EmittedFromParagraphs(ctx.(filter := None), trimmed))
    ensures EmittedFromParagraph(ctx, p) == Emitted(ctx, Fields(None, p, BLANK))
  {
    hide Paragraphs, EmittedFromParagraphs, Keep, Fields, Emitted, Kept;
    var ps := Paragraphs(trimmed);
    ParagraphsAreKept(ctx, trimmed);
    forall q | q in ps ensures |Cut(ctx)(q)| <= |Kept(ctx)(q)| {
      CutsAtMostKept(ctx, q);
    }
    FlatMapPieces(Cut(ctx), Kept(ctx), ps);
    KeptIsOpenCut(ctx, p);
  }

  lemma {:induction false} StreamsFilter(streams: seq<PackageIndexStream>, filter: Filter)
    ensures var all := ParseStreams(streams, None);
            ParseStreams(streams, Some(filter)) == if all.Ok? then Ok(Keep(filter, all.value)) else all
  {
    if streams != [] {
      var init, last := streams[..|streams| - 1], streams[|streams| - 1];
      StreamsFilter(init, filter);
      if last.source.Opens? {
        var ctx := ContextOf(last.name, last.priority, last.backports, Some(filter));
        assert ctx.(filter := None) == ContextOf(last.name, last.priority, last.backports, None);
        var data := last.source.reader.data;
        StreamFilters(ctx, data, BLANK);
        if ParseStreams(init, None).Ok? {
          KeepAppend(filter, ParseStreams(init, None).value, Stream(ctx.(filter := None), data, BLANK));
        }
      }
    }
  }

  lemma {:induction false} IndexesFilter(indexes: seq<PackageIndex>, filter: Filter)
    requires forall index, p | index in indexes && p in Paragraphs(TrimSpace(index.data)) :: FiltersAlike(p)
    ensures ParseIndexes(indexes, Some(filter)) == Keep(filter, ParseIndexes(indexes, None))
  {
    if indexes != [] {
      var init, last := indexes[..|indexes| - 1], indexes[|indexes| - 1];
      IndexesFilter(init, filter);
      var ctx := ContextOf(last.name, last.priority, last.backports, Some(filter));
      assert ctx.(filter := None) == ContextOf(last.name, last.priority, last.backports, None);
      ParagraphsFilter(ctx, TrimSpace(last.data));
      KeepAppend(filter, ParseIndexes(init, None), BytesParse(ctx.(filter := None), last.data));
    }
  }

  // ----- Installed packages find the same candidates -----

  /** Every parsed package is named and carries an architecture. */
  ghost predicate Named(available: seq<AvailablePackage>) {
    forall c | c in available :: c.name != "" && c.architecture != ""
  }

  lemma {:induction false} StreamIsNamed(ctx: Context, data: string, e: Entry)
    ensures Named(Stream(ctx, data, e))
    decreases |data|
  {
    if data != "" {
      var line, rest := DropCR(FirstLine(data)), AfterLine(data);
      StreamIsNamed(ctx, rest, if line == "" then BLANK else ReadLine(e, line, false));
    }
  }

  lemma {:induction false} StreamsAreNamed(streams: seq<PackageIndexStream>, filter: Option<Filter>)
    ensures ParseStreams(streams, filter).Ok? ==> Named(ParseStreams(streams, filter).value)
  {
    if streams != [] {
      var last := streams[|streams| - 1];
      StreamsAreNamed(streams[..|streams| - 1], filter);
      if last.source.Opens? {
        StreamIsNamed(ContextOf(last.name, last.priority, last.backports, filter), last.source.reader.data, BLANK);
      }
    }
  }

  lemma {:induction false} ParagraphsAreNamed(ctx: Context, trimmed: string)
    ensures Named(EmittedFromParagraphs(ctx, trimmed))
    decreases |trimmed|
  {
    if trimmed != "" { ParagraphsAreNamed(ctx, NextParagraph(trimmed)); }
  }

  lemma {:induction false} IndexesAreNamed(indexes: seq<PackageIndex>, filter: Option<Filter>)
    ensures Named(ParseIndexes(indexes, filter))
  {
    if indexes != [] {
      var last := indexes[|indexes| - 1];
      IndexesAreNamed(indexes[..|indexes| - 1], filter);
      ParagraphsAreNamed(ContextOf(last.name, last.priority, last.backports, filter), TrimSpace(last.data));
    }
  }

  lemma {:induction false} FilterAllowsInstalled(installed: seq<InstalledPackage>, pkg: InstalledPackage)
    requires pkg in installed && IsInstalled(pkg.status) && pkg.name != ""
    ensures FilterAllows(FilterOf(installed), pkg.name, pkg.architecture)
    ensures FilterAllows(FilterOf(installed), pkg.name, "all")
  {
    var init, last := installed[..|installed| - 1], installed[|installed| - 1];
    if pkg != last {
      FilterAllowsInstalled(init, pkg);
    }
  }

  lemma {:induction false} KeepWithKey(filter: Filter, available: seq<AvailablePackage>, k: PackageKey)
    requires FilterAllows(filter, k.name, k.arch) || WithKey(available, k) == []
    ensures WithKey(Keep(filter, available), k) == WithKey(available, k)
  {
    if available != [] {
      var init, last := available[..|available| - 1], available[|available| - 1];
      KeepWithKey(filter, init, k);
      var kept := Keep(filter, init);
      if FilterAllows(filter, last.name, last.architecture) {
        assert (kept + [last])[..|kept|] == kept;
        assert WithKey(kept + [last], k) == WithKey(kept, k) + if KeyOf(last) == k then [last] else [];
      } else {
        assert KeyOf(last) != k;
        assert Keep(filter, available) == kept && WithKey(available, k) == WithKey(init, k);
      }
    }
  }

  lemma {:induction false} NoUnnamedCandidates(available: seq<AvailablePackage>, k: PackageKey)
    requires Named(available) && (k.name == "" || k.arch == "")
    ensures WithKey(available, k) == []
  {
    if available != [] {
      NoUnnamedCandidates(available[..|available| - 1], k);
    }
  }

  /** An installed package finds the same candidates in the filtered and the unfiltered list, also
      when its architecture is missing or the search falls back to "all". */
  lemma FilterKeepsCandidates(installed: seq<InstalledPackage>, available: seq<AvailablePackage>, pkg: InstalledPackage)
    requires Named(available)
    requires pkg in installed && IsInstalled(pkg.status)
    ensures Candidates(pkg, Keep(FilterOf(installed), available)) == Candidates(pkg, available)
  {
    var own, all := PackageKey(pkg.name, pkg.architecture), PackageKey(pkg.name, "all");
    if pkg.name == "" || pkg.architecture == "" {
      NoUnnamedCandidates(available, own);
    }
    if pkg.name == "" {
      NoUnnamedCandidates(available, all);
    } else {
      FilterAllowsInstalled(installed, pkg);
    }
    KeepWithKey(FilterOf(installed), available, own);
    KeepWithKey(FilterOf(installed), available, all);
  }

  lemma FilterKeepsCounts(vo: VersionComparison, installed: seq<InstalledPackage>, available: seq<AvailablePackage>)
    requires Named(available)
    ensures CountUpdates(vo, installed, Keep(FilterOf(installed), available)) == CountUpdates(vo, installed, available)
  {
    forall pkg | pkg in installed && IsInstalled(pkg.status)
      ensures Candidates(pkg, Keep(FilterOf(installed), available)) == Candidates(pkg, available)
    {
      FilterKeepsCandidates(installed, available, pkg);
    }
    CountsAgree(vo, installed, Keep(FilterOf(installed), available), available, false);
    CountsAgree(vo, installed, Keep(FilterOf(installed), available), available, true);
  }

  /** Parsing streams with the filter fails exactly when parsing without it does, and otherwise
      yields the same five counts. */
  lemma StreamFilterIsTransparent(vo: VersionComparison, installed: seq<InstalledPackage>, streams: seq<PackageIndexStream>)
    ensures var filtered, all := ParseStreams(streams, Some(FilterOf(installed))), ParseStreams(streams, None);
            if all.Ok? then filtered.Ok? && CountUpdates(vo, installed, filtered.value) == CountUpdates(vo, installed, all.value)
            else filtered == all
  {
    StreamsFilter(streams, FilterOf(installed));
    StreamsAreNamed(streams, None);
    if ParseStreams(streams, None).Ok? {
      FilterKeepsCounts(vo, installed, ParseStreams(streams, None).value);
    }
  }

  /** The same of buffers whose paragraphs filter alike. */
  lemma BytesFilterIsTransparent(vo: VersionComparison, installed: seq<InstalledPackage>, indexes: seq<PackageIndex>)
    requires forall index, p | index in indexes && p in Paragraphs(TrimSpace(index.data)) :: FiltersAlike(p)
    ensures CountUpdates(vo, installed, ParseIndexes(indexes, Some(FilterOf(installed))))
         == CountUpdates(vo, installed, ParseIndexes(indexes, None))
  {
    IndexesFilter(indexes, FilterOf(installed));
    IndexesAreNamed(indexes, None);
    FilterKeepsCounts(vo, installed, ParseIndexes(indexes, None));
  }
}
