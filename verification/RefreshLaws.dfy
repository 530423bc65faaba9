/** What one refresh reports, told from the answers it gets. */
module RefreshLaws {
  import opened Packages
  import opened Versions
  import opened PackageIndexes
  import opened Counting
  import opened Revisions
  import opened StatusDatabases
  import opened UpdateMeanings
  import opened Collection
  import opened CollectionLaws

  // ----- Streams -----

  /** The stream opens, delivers all its lines, none of them overlong, and closes. */
  predicate IsSound(s: PackageIndexStream) {
    s.source.Opens? && !s.source.reader.fails && !HasLongLine(s.source.reader.data) && !s.source.closeFails
  }

  /** Stream number `i` is the first that is not sound. */
  predicate FailsFirst(streams: seq<PackageIndexStream>, i: nat)
    requires i < |streams|
  {
    !IsSound(streams[i]) && forall j | 0 <= j < i :: IsSound(streams[j])
  }

  predicate AllSound(streams: seq<PackageIndexStream>) {
    forall i | 0 <= i < |streams| :: IsSound(streams[i])
  }

  /** The first stream that is not sound cannot even be opened. */
  predicate OpenFailsFirst(streams: seq<PackageIndexStream>) {
    exists i | 0 <= i < |streams| :: FailsFirst(streams, i) && streams[i].source.OpenFails?
  }

  lemma ParseStep(streams: seq<PackageIndexStream>, filter: Option<Filter>)
    requires streams != []
    ensures var before, r := ParseStreams(streams[..|streams| - 1], filter), ParseStreams(streams, filter);
            var last := streams[|streams| - 1];
            if !before.Ok? then r == before
            else (r.Ok? <==> IsSound(last)) && (r.ReadError? <==> last.source.OpenFails?)
  {
    hide HasLongLine, Stream, ContextOf;
  }

  lemma FailsFirstSnoc(streams: seq<PackageIndexStream>)
    requires streams != []
    ensures var init, last := streams[..|streams| - 1], streams[|streams| - 1];
            && (AllSound(streams) <==> AllSound(init) && IsSound(last))
            && (OpenFailsFirst(streams) <==> OpenFailsFirst(init) || (AllSound(init) && last.source.OpenFails?))
            && (AllSound(init) ==> !OpenFailsFirst(init))
  {
    var init, last := streams[..|streams| - 1], streams[|streams| - 1];
    assert last.source.OpenFails? ==> !IsSound(last);
    hide IsSound;
    assert forall j | 0 <= j < |init| :: streams[j] == init[j];
    forall i | 0 <= i < |init| ensures FailsFirst(streams, i) <==> FailsFirst(init, i) {
    }
    assert FailsFirst(streams, |init|) <==> !IsSound(last) && AllSound(init);
    hide FailsFirst, AllSound;
    assert streams[|init|] == last;
    SoundStreamsOpen(init);
  }

  lemma SoundStreamsOpen(streams: seq<PackageIndexStream>)
    ensures AllSound(streams) ==> !OpenFailsFirst(streams)
  {
  }

  /** Parsing succeeds exactly when all streams are sound; if the first that is not cannot be opened,
      that is a read error, and any other fault is a parse error. */
  lemma {:induction false} StreamsFail(streams: seq<PackageIndexStream>, filter: Option<Filter>)
    ensures var r := ParseStreams(streams, filter);
            && (r.Ok? <==> AllSound(streams))
            && (r.ReadError? <==> OpenFailsFirst(streams))
            && (r.ParseError? <==> !AllSound(streams) && !OpenFailsFirst(streams))
  {
    if streams != [] {
      StreamsFail(streams[..|streams| - 1], filter);
      ParseStep(streams, filter);
      FailsFirstSnoc(streams);
      hide ParseStreams, AllSound, OpenFailsFirst, IsSound;
    }
  }

  // ----- The indexes -----

  /** The indexes cannot be listed or opened. */
  predicate CannotRead(answer: IndexAnswer) {
    answer.StreamsFail? || answer.BuffersFail? || (answer.StreamsAre? && OpenFailsFirst(answer.streams))
  }

  /** All could be opened up to the first fault, which is another one. */
  predicate CannotParse(answer: IndexAnswer) {
    answer.StreamsAre? && !AllSound(answer.streams) && !OpenFailsFirst(answer.streams)
  }

  function IndexCount(answer: IndexAnswer): nat {
    match answer
    case StreamsAre(streams) => |streams|
    case BuffersAre(indexes) => |indexes|
    case _ => 0
  }

  lemma ReadMeans(answer: IndexAnswer, installed: seq<InstalledPackage>)
    ensures var read := ReadAvailable(answer, installed);
            && (read.ReadError? <==> CannotRead(answer))
            && (read.ParseError? <==> CannotParse(answer))
            && (read.Ok? ==> (read.value.valid <==> IndexCount(answer) > 0))
  {
    if answer.StreamsAre? {
      StreamsFail(answer.streams, Some(FilterOf(installed)));
    }
    hide ParseStreams, ParseIndexes, AllSound, OpenFailsFirst, FilterOf;
  }

  // ----- The parts of a refresh -----

  /** Metadata and totals leave the rest of a refresh alone. */
  lemma FinishKeeps(r: Refresh, answer: MetadataAnswer)
    ensures var t := WithTotals(WithMetadata(r, answer));
            && t.errors == r.errors + (if answer.MetadataFails? then [MetadataFailed] else [])
            && t.state.hits == r.state.hits && t.state.misses == r.state.misses
            && t.stats.installed == r.stats.installed && t.stats.broken == r.stats.broken
            && t.stats.stageDurations == r.stats.stageDurations && t.stats.updates == r.stats.updates
            && t.stats.statusHealth.up == r.stats.statusHealth.up && t.stats.statusHealth.valid == r.stats.statusHealth.valid
            && t.stats.listsHealth.up == r.stats.listsHealth.up && t.stats.listsHealth.valid == r.stats.listsHealth.valid
            && t.stats.metadata == if answer.MetadataIs? then answer.metadata else r.stats.metadata
  {
    assert r.errors + [] == r.errors;
  }

  function StatusPart(u: Unicode, st: State, a: Answers): Refresh {
    if a.Status().StatusIs? then WithStatus(u, st, a, a.Status().installed) else WithoutStatus(st, a)
  }

  lemma CollectedFinishes(u: Unicode, st: State, a: Answers)
    ensures Collected(u, st, a) == WithTotals(WithMetadata(StatusPart(u, st, a), a.metadata))
  {
    hide WithStatus, WithoutStatus, WithTotals, WithMetadata, StrictRecords;
  }

  /** What the lookup of a refresh with records comes to. */
  lemma LookupMeans(st: State, a: Answers, installed: seq<InstalledPackage>)
    ensures var (t, read) := Available(st, a, installed);
            var missed := t.misses > st.misses;
            && (read.ReadError? <==> a.revision.RevisionFails? || (missed && CannotRead(a.indexes)))
            && (read.ParseError? <==> missed && CannotParse(a.indexes))
            && (read.Ok? ==> (read.value.valid <==> if missed then IndexCount(a.indexes) > 0 else st.valid))
            && (missed ==> !a.revision.RevisionFails?)
            && (a.revision.NotRevisioned? ==> missed)
  {
    ReadMeans(a.indexes, installed);
    hide ReadAvailable, CacheHit, InstalledRevision, CannotRead, CannotParse, IndexCount;
  }

  // ----- Errors and health -----

  /** The status database: which errors it causes and what its health flags say. */
  lemma StatusReport(u: Unicode, st: State, a: Answers)
    ensures var r := Collected(u, st, a);
            var readable := a.statusText.Some?;
            var parsable := readable && StrictRecords(a.statusText.value).Some?;
            && (StatusReadFailed in r.errors <==> !readable)
            && (StatusParseFailed in r.errors <==> readable && !parsable)
            && (r.stats.statusHealth.up <==> readable) && (r.stats.statusHealth.valid <==> parsable)
            && (MetadataFailed in r.errors <==> a.metadata.MetadataFails?)
            && r.stats.metadata == if a.metadata.MetadataIs? then a.metadata.metadata else Metadata(0, 0, map[])
  {
    CollectedFinishes(u, st, a);
    FinishKeeps(StatusPart(u, st, a), a.metadata);
    hide Collected, WithTotals, WithMetadata, StrictRecords;
    hide Available, AvailableStages, CountUpdates, Durations, CountWhere, VersionOrder;
  }

  /** The index files: which errors they cause and what their health flags say. A refresh that misses
      the cache, as every refresh without revisions does, depends on the files; a hit does not. */
  lemma ListsReport(u: Unicode, st: State, a: Answers)
    ensures var r := Collected(u, st, a);
            var missed := r.state.misses > st.misses;
            var readFailed := if a.Status().StatusIs? then a.revision.RevisionFails? || (missed && CannotRead(a.indexes))
                              else a.fallback.None?;
            var parseFailed := a.Status().StatusIs? && missed && CannotParse(a.indexes);
            var present := if !a.Status().StatusIs? then a.fallback.Some? && a.fallback.value != []
                           else if missed then IndexCount(a.indexes) > 0 else st.valid;
            && (IndexReadFailed in r.errors <==> readFailed)
            && (IndexParseFailed in r.errors <==> parseFailed)
            && (r.stats.listsHealth.up <==> !readFailed)
            && (r.stats.listsHealth.valid <==> !readFailed && !parseFailed && present)
  {
    CollectedFinishes(u, st, a);
    FinishKeeps(StatusPart(u, st, a), a.metadata);
    hide Collected, WithTotals, WithMetadata, StrictRecords;
    if a.Status().StatusIs? {
      LookupMeans(st, a, a.Status().installed);
      hide Available, AvailableStages, CountUpdates, Durations, CountWhere, VersionOrder, CannotRead, CannotParse, IndexCount;
    } else {
      hide Durations;
    }
  }

  /** The exported totals: errors of each kind since the start, and the lookups of the collector. */
  lemma TotalsReport(u: Unicode, run: seq<Answers>, a: Answers)
    ensures var stats, next := Collected(u, StateAfter(u, run), a).stats, StateAfter(u, run + [a]);
            var errors := ErrorsReported(u, run + [a]);
            && stats.statusHealth.readErrors == Times(errors, StatusReadFailed)
            && stats.statusHealth.parseErrors == Times(errors, StatusParseFailed)
            && stats.listsHealth.readErrors == Times(errors, IndexReadFailed) + Times(errors, MetadataFailed)
            && stats.listsHealth.parseErrors == Times(errors, IndexParseFailed)
            && stats.cacheHits == next.hits && stats.cacheMisses == next.misses
  {
    var more := run + [a];
    ErrorKindsAreConserved(u, more);
    assert more[..|run|] == run && more[|run|] == a;
    CollectedFinishes(u, StateAfter(u, run), a);
    StateSnoc(u, run, a);
    hide StatusPart, WithMetadata, ErrorsReported, Times, Collected, StateAfter;
  }

  lemma StateSnoc(u: Unicode, run: seq<Answers>, a: Answers)
    ensures StateAfter(u, run + [a]) == Collected(u, StateAfter(u, run), a).state
  {
    assert (run + [a])[..|run|] == run;
    hide Collected;
  }

  /** A refresh reports each error at most once. */
  lemma ErrorsAreDistinct(u: Unicode, st: State, a: Answers)
    ensures var errors := Collected(u, st, a).errors;
            forall i, j | 0 <= i < j < |errors| :: errors[i] != errors[j]
  {
    CollectedFinishes(u, st, a);
    FinishKeeps(StatusPart(u, st, a), a.metadata);
    hide Collected, WithTotals, WithMetadata, StrictRecords;
    hide Available, AvailableStages, CountUpdates, Durations, CountWhere, VersionOrder;
  }

  /** Nothing is counted unless both sources could be read and parsed. */
  lemma UncountedReport(u: Unicode, st: State, a: Answers)
    ensures var r := Collected(u, st, a);
            !r.stats.statusHealth.valid || IndexReadFailed in r.errors || IndexParseFailed in r.errors ==>
              r.stats.updates == UpdateCounts(0, 0, 0, 0, 0) && !r.stats.upgradeMetricsValid
  {
    CollectedFinishes(u, st, a);
    FinishKeeps(StatusPart(u, st, a), a.metadata);
    ValidWhenBothSourcesAre(u, st, a);
    ListsReport(u, st, a);
    hide Collected, WithTotals, WithMetadata, StrictRecords, CannotRead, CannotParse, IndexCount;
    hide Available, AvailableStages, CountUpdates, Durations, CountWhere, VersionOrder;
  }

  /** Wanted, yet neither installed nor absent. */
  predicate IsHalfway(pkg: InstalledPackage) {
    |pkg.status| == 3 && pkg.status[0] == "install" && pkg.status[2] !in ["not-installed", "config-files", "installed"]
  }

  /** The inventory counts the records of the status database. */
  lemma InventoryReport(u: Unicode, st: State, a: Answers)
    ensures var stats := Collected(u, st, a).stats;
            var records := if a.Status().StatusIs? then a.Status().installed else [];
            && stats.installed == CountWhere(records, pkg => IsPresent(pkg))
            && stats.broken == CountWhere(records, pkg => IsHalfway(pkg))
  {
    CollectedFinishes(u, st, a);
    FinishKeeps(StatusPart(u, st, a), a.metadata);
    hide Collected, WithTotals, WithMetadata, StrictRecords;
    if a.Status().StatusIs? {
      var records := a.Status().installed;
      CountWhereAgree(records, IsInstalledPackage, pkg => IsPresent(pkg));
      CountWhereAgree(records, IsBrokenPackage, pkg => IsHalfway(pkg));
      hide Available, AvailableStages, CountUpdates, Durations, CountWhere, VersionOrder;
    } else {
      CountWhereNone<InstalledPackage>(pkg => IsPresent(pkg));
      CountWhereNone<InstalledPackage>(pkg => IsHalfway(pkg));
      hide Durations, CountWhere;
    }
  }

  /** The stages that were timed tell how far a refresh got. */
  predicate StagesTell(a: Answers, stages: map<string, real>, read: bool, parsed: bool, missed: bool, counted: bool) {
    && "status_read" in stages
    && ("status_parse" in stages <==> read)
    && ("index_revision" in stages <==> parsed && !a.revision.NotRevisioned?)
    && ("index_read" in stages <==> missed)
    && ("index_parse" in stages <==> missed && !a.indexes.StreamsFail? && !a.indexes.BuffersFail?)
    && ("count" in stages <==> counted)
    && forall stage | stage in stages ::
         && stage in ["status_read", "status_parse", "index_revision", "index_read", "index_parse", "count"]
         && stages[stage] == a.elapsed(stage)
  }

  lemma WithStatusStages(u: Unicode, st: State, a: Answers, installed: seq<InstalledPackage>)
    ensures var r := WithStatus(u, st, a, installed);
            && StagesTell(a, r.stats.stageDurations, true, true, r.state.misses > st.misses,
                          IndexReadFailed !in r.errors && IndexParseFailed !in r.errors)
            && r.stats.statusHealth.up && r.stats.statusHealth.valid
  {
    StagesOfLookup(st, a, installed);
    hide Available, AvailableStages, CountUpdates, CountWhere, VersionOrder;
  }

  lemma WithoutStatusStages(st: State, a: Answers)
    requires !a.Status().StatusIs?
    ensures var r := WithoutStatus(st, a);
            && StagesTell(a, r.stats.stageDurations, r.stats.statusHealth.up, false, false, false)
            && r.state.misses == st.misses && !r.stats.statusHealth.valid
  {
    hide StrictRecords;
  }

  /** Every stage that was reached is timed, once, by its own duration. */
  lemma StageReport(u: Unicode, st: State, a: Answers)
    ensures var r := Collected(u, st, a);
            var parsed := r.stats.statusHealth.valid;
            StagesTell(a, r.stats.stageDurations, r.stats.statusHealth.up, parsed, r.state.misses > st.misses,
                       parsed && IndexReadFailed !in r.errors && IndexParseFailed !in r.errors)
  {
    CollectedFinishes(u, st, a);
    FinishKeeps(StatusPart(u, st, a), a.metadata);
    hide Collected, WithTotals, WithMetadata, StrictRecords, StagesTell;
    if a.Status().StatusIs? {
      WithStatusStages(u, st, a, a.Status().installed);
    } else {
      WithoutStatusStages(st, a);
    }
    hide WithStatus, WithoutStatus;
  }

  lemma StagesOfLookup(st: State, a: Answers, installed: seq<InstalledPackage>)
    ensures var stages, missed := AvailableStages(st, a, installed), Available(st, a, installed).0.misses > st.misses;
            && ("index_revision" in stages <==> !a.revision.NotRevisioned?)
            && ("index_read" in stages <==> missed)
            && ("index_parse" in stages <==> missed && !a.indexes.StreamsFail? && !a.indexes.BuffersFail?)
            && forall stage | stage in stages :: stage in ["index_revision", "index_read", "index_parse"]
  {
    hide ReadAvailable, CacheHit, InstalledRevision;
  }
}
