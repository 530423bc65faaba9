/** Laws of sequential runs of the collector. */
module CollectionLaws {
  import opened Packages
  import opened Counting
  import opened Text
  import opened Versions
  import opened PackageIndexes
  import opened EarlyExits
  import opened FilterLaws
  import opened Revisions
  import opened IndexCache
  import opened Collection
  import opened StatusDatabases
  import opened CleanTexts

  function StateAfter(u: Unicode, run: seq<Answers>): State {
    if run == [] then FRESH else Collected(u, StateAfter(u, run[..|run| - 1]), run[|run| - 1]).state
  }

  // ----- Conservation -----

  function ErrorTotal(st: State): nat {
    st.statusReadErrors + st.statusParseErrors + st.listsReadErrors + st.listsParseErrors
  }

  /** All errors joined by the refreshes of a run. */
  function ErrorsReported(u: Unicode, run: seq<Answers>): seq<CollectError> {
    if run == [] then []
    else ErrorsReported(u, run[..|run| - 1]) + Collected(u, StateAfter(u, run[..|run| - 1]), run[|run| - 1]).errors
  }

  function Times(errors: seq<CollectError>, e: CollectError): nat {
    multiset(errors)[e]
  }

  /** Each counter has grown by the number of errors of its kinds. */
  ghost predicate ErrorsCounted(s: State, t: State, errors: seq<CollectError>) {
    && t.statusReadErrors == s.statusReadErrors + Times(errors, StatusReadFailed)
    && t.statusParseErrors == s.statusParseErrors + Times(errors, StatusParseFailed)
    && t.listsReadErrors == s.listsReadErrors + Times(errors, IndexReadFailed) + Times(errors, MetadataFailed)
    && t.listsParseErrors == s.listsParseErrors + Times(errors, IndexParseFailed)
  }

  lemma ErrorsCountedChain(s: State, t: State, v: State, a: seq<CollectError>, b: seq<CollectError>)
    requires ErrorsCounted(s, t, a) && ErrorsCounted(t, v, b)
    ensures ErrorsCounted(s, v, a + b)
  {
  }

  lemma {:induction false} KindsAddUp(errors: seq<CollectError>)
    ensures |errors| == Times(errors, StatusReadFailed) + Times(errors, StatusParseFailed)
                      + Times(errors, IndexReadFailed) + Times(errors, MetadataFailed) + Times(errors, IndexParseFailed)
  {
    if errors != [] {
      KindsAddUp(errors[1..]);
      assert errors == [errors[0]] + errors[1..];
      assert multiset(errors) == multiset{errors[0]} + multiset(errors[1..]);
      assert forall e :: Times(errors, e) == Times(errors[1..], e) + if e == errors[0] then 1 else 0;
      match errors[0] {
        case StatusReadFailed =>
        case StatusParseFailed =>
        case IndexReadFailed =>
        case IndexParseFailed =>
        case MetadataFailed =>
      }
    }
  }

  function LooksUp(): Answers -> bool {
    (a: Answers) => a.Status().StatusIs? && !a.revision.RevisionFails?
  }

  /** No counter of the collector goes down. */
  ghost predicate CountersGrow(s: State, t: State) {
    && s.hits <= t.hits && s.misses <= t.misses
    && s.statusReadErrors <= t.statusReadErrors && s.statusParseErrors <= t.statusParseErrors
    && s.listsReadErrors <= t.listsReadErrors && s.listsParseErrors <= t.listsParseErrors
  }

  /** What a refresh from `s` does to the counters, given how many cache lookups it makes. */
  ghost predicate Accounts(s: State, r: Refresh, lookups: nat) {
    && CountersGrow(s, r.state)
    && ErrorsCounted(s, r.state, r.errors)
    && r.state.hits + r.state.misses == s.hits + s.misses + lookups
  }

  lemma AvailableAccounts(st: State, a: Answers, installed: seq<InstalledPackage>)
    ensures var t := Available(st, a, installed).0;
            && CountersGrow(st, t) && SameCounters(t, st)
            && t.hits + t.misses == st.hits + st.misses + if a.revision.RevisionFails? then 0 else 1
  {
    hide ReadAvailable, CacheHit, InstalledRevision;
  }

  lemma WithStatusAccounts(u: Unicode, st: State, a: Answers, installed: seq<InstalledPackage>)
    ensures Accounts(st, WithStatus(u, st, a, installed), if a.revision.RevisionFails? then 0 else 1)
  {
    AvailableAccounts(st, a, installed);
    hide Available, AvailableStages, CountUpdates, Durations, CountWhere, VersionOrder;
  }

  lemma WithoutStatusAccounts(st: State, a: Answers)
    requires !a.Status().StatusIs?
    ensures Accounts(st, WithoutStatus(st, a), 0)
  {
    hide Durations;
  }

  lemma MetadataAccounts(s: State, r: Refresh, answer: MetadataAnswer, lookups: nat)
    requires Accounts(s, r, lookups)
    ensures Accounts(s, WithTotals(WithMetadata(r, answer)), lookups)
  {
  }

  lemma CollectedAccounts(u: Unicode, st: State, a: Answers)
    ensures Accounts(st, Collected(u, st, a), if LooksUp()(a) then 1 else 0)
  {
    if a.Status().StatusIs? {
      WithStatusAccounts(u, st, a, a.Status().installed);
      MetadataAccounts(st, WithStatus(u, st, a, a.Status().installed), a.metadata, if a.revision.RevisionFails? then 0 else 1);
    } else {
      WithoutStatusAccounts(st, a);
      MetadataAccounts(st, WithoutStatus(st, a), a.metadata, 0);
    }
    hide WithStatus, WithoutStatus, WithTotals, WithMetadata, Accounts;
  }

  /** Each error counter is the number of reported errors of its kinds over the whole run. */
  lemma {:induction false} ErrorKindsAreConserved(u: Unicode, run: seq<Answers>)
    ensures ErrorsCounted(FRESH, StateAfter(u, run), ErrorsReported(u, run))
  {
    if run == [] {
      NothingCounted(FRESH);
    } else {
      hide Collected, ErrorsCounted;
      var init := run[..|run| - 1];
      ErrorKindsAreConserved(u, init);
      CollectedAccounts(u, StateAfter(u, init), run[|run| - 1]);
      ErrorsCountedChain(FRESH, StateAfter(u, init), StateAfter(u, run), ErrorsReported(u, init),
                         Collected(u, StateAfter(u, init), run[|run| - 1]).errors);
    }
  }

  lemma NothingCounted(s: State)
    ensures ErrorsCounted(s, s, [])
  {
  }

  /** The four error counters together have counted every reported error, once. */
  lemma ErrorsAreConserved(u: Unicode, run: seq<Answers>)
    ensures ErrorTotal(StateAfter(u, run)) == |ErrorsReported(u, run)|
  {
    ErrorKindsAreConserved(u, run);
    KindsAddUp(ErrorsReported(u, run));
    hide StateAfter, ErrorsReported, Times;
  }

  /** Hits and misses together count the refreshes with status records that passed the revision step. */
  lemma {:induction false} LookupsAreConserved(u: Unicode, run: seq<Answers>)
    ensures StateAfter(u, run).hits + StateAfter(u, run).misses == CountWhere(run, LooksUp())
  {
    hide Collected;
    if run != [] {
      LookupsAreConserved(u, run[..|run| - 1]);
      CollectedAccounts(u, StateAfter(u, run[..|run| - 1]), run[|run| - 1]);
    }
  }

  /** The upgrade metrics are valid exactly when both sources are. */
  lemma ValidWhenBothSourcesAre(u: Unicode, st: State, a: Answers)
    ensures var stats := Collected(u, st, a).stats;
            stats.upgradeMetricsValid <==> stats.statusHealth.valid && stats.listsHealth.valid
  {
    hide VersionOrder, Available, AvailableStages, CountUpdates, Durations, CountWhere;
  }

  /** A hit counts as one hit, any other lookup as one miss, and no lookup as neither. */
  lemma LookupsAreCounted(u: Unicode, st: State, a: Answers)
    ensures var t := Collected(u, st, a).state;
            var hit := LooksUp()(a) && a.revision.RevisionIs? && CacheHit(st, a.revision.revision, a.Status().installed);
            && t.hits == st.hits + (if hit then 1 else 0)
            && t.misses == st.misses + (if LooksUp()(a) && !hit then 1 else 0)
  {
    hide VersionOrder, ReadAvailable, CacheHit, InstalledRevision, AvailableStages, CountUpdates, Durations, CountWhere;
    if a.Status().StatusIs? {
      AvailableCounts(st, a, a.Status().installed);
      hide Available;
    }
  }

  lemma AvailableCounts(st: State, a: Answers, installed: seq<InstalledPackage>)
    ensures var t := Available(st, a, installed).0;
            var hit := a.revision.RevisionIs? && CacheHit(st, a.revision.revision, installed);
            && t.hits == st.hits + (if hit then 1 else 0)
            && t.misses == st.misses + (if !a.revision.RevisionFails? && !hit then 1 else 0)
  {
    hide ReadAvailable, CacheHit, InstalledRevision;
  }

  // ----- Cache transparency -----

  /** All packages of the answered indexes, without filter. */
  function Unfiltered(answer: IndexAnswer): Result<seq<AvailablePackage>> {
    match answer
    case StreamsFail => ReadError
    case BuffersFail => ReadError
    case StreamsAre(streams) => ParseStreams(streams, None)
    case BuffersAre(indexes) => Ok(ParseIndexes(indexes, None))
  }

  predicate Readable(answer: IndexAnswer) {
    Unfiltered(answer).Ok?
  }

  /** The installed packages do not matter for whether the indexes can be read. */
  lemma ReadsWhenReadable(answer: IndexAnswer, installed: seq<InstalledPackage>)
    ensures ReadAvailable(answer, installed).Ok? <==> Readable(answer)
  {
    hide ParseStreams, ParseIndexes, FilterOf;
    if answer.StreamsAre? {
      StreamsFilter(answer.streams, FilterOf(installed));
    }
  }

  /** Within the run, two readable answers at equal revisions are equal. Reads may fail at any
      revision, any number of times. */
  ghost predicate RevisionsIdentify(run: seq<Answers>) {
    forall a, b | a in run && b in run && a.revision.RevisionIs? && a.revision == b.revision
                  && Readable(a.indexes) && Readable(b.indexes) :: a.indexes == b.indexes
  }

  /** Revisions identify the indexes, and installed records are clean. */
  ghost predicate Consistent(run: seq<Answers>) {
    && RevisionsIdentify(run)
    && forall a | a in run && a.Status().StatusIs? :: CleanInstalled(a.Status().installed)
  }

  /** What the status databases have to look like for that. */
  lemma CleanTextsAreConsistent(run: seq<Answers>)
    requires RevisionsIdentify(run)
    requires forall a | a in run && a.statusText.Some? :: CleanText(a.statusText.value)
    ensures Consistent(run)
  {
    hide RevisionsIdentify, CleanText, CleanInstalled, StrictRecords;
    forall a | a in run && a.Status().StatusIs? ensures CleanInstalled(a.Status().installed) {
      CleanTextIsClean(a.statusText.value);
    }
  }

  /** The cached list is what one earlier refresh read and parsed. */
  ghost predicate CacheOrigin(run: seq<Answers>, st: State) {
    st.available != [] ==>
      exists a | a in run :: CachesRead(st, a)
  }

  lemma OriginExtends(run: seq<Answers>, a: Answers, st: State)
    requires CacheOrigin(run, st)
    ensures CacheOrigin(run + [a], st)
  {
    assert forall b | b in run :: b in run + [a];
  }

  lemma OriginMoves(run: seq<Answers>, a: Answers, s: State, t: State)
    requires CacheOrigin(run, s) && (SameCache(t, s) || CachesRead(t, a))
    ensures CacheOrigin(run + [a], t)
  {
    hide InstalledRevision, ReadAvailable;
    OriginExtends(run, a, s);
    assert a in run + [a];
    if s.available != [] && SameCache(t, s) {
      var b :| b in run && CachesRead(s, b);
      assert b in run + [a] && CachesRead(t, b);
    }
  }

  lemma {:induction false} CacheHasOrigin(u: Unicode, run: seq<Answers>)
    ensures CacheOrigin(run, StateAfter(u, run))
  {
    hide Collected, CachesRead, SameCache;
    if run != [] {
      var init, a := run[..|run| - 1], run[|run| - 1];
      CacheHasOrigin(u, init);
      CollectedCache(u, StateAfter(u, init), a);
      assert run == init + [a];
      OriginMoves(init, a, StateAfter(u, init), StateAfter(u, run));
    }
  }

  ghost predicate SameCache(s: State, t: State) {
    && s.available == t.available && s.valid == t.valid
    && s.packageRevision == t.packageRevision && s.installedRevision == t.installedRevision
  }

  /** `t` caches what `a` made this refresh read. */
  ghost predicate CachesRead(t: State, a: Answers) {
    && a.revision == RevisionIs(t.packageRevision)
    && a.Status().StatusIs? && InstalledRevision(a.Status().installed) == t.installedRevision
    && ReadAvailable(a.indexes, a.Status().installed) == Ok(Outcome(t.available, t.valid))
  }

  lemma AvailableCache(st: State, a: Answers)
    requires a.Status().StatusIs?
    ensures var t := Available(st, a, a.Status().installed).0; SameCache(t, st) || CachesRead(t, a)
  {
    hide ReadAvailable, CacheHit, InstalledRevision;
  }

  /** A refresh leaves the cache alone or replaces it by what it has read itself. */
  lemma CollectedCache(u: Unicode, st: State, a: Answers)
    ensures var t := Collected(u, st, a).state; SameCache(t, st) || CachesRead(t, a)
  {
    if a.Status().StatusIs? {
      AvailableCache(st, a);
    }
    StatusKeepsCache(u, st, a);
    hide Available, WithStatus, WithoutStatus, WithTotals, WithMetadata, InstalledRevision, ReadAvailable;
    MetadataKeepsCache(if a.Status().StatusIs? then WithStatus(u, st, a, a.Status().installed) else WithoutStatus(st, a),
                       a.metadata);
  }

  lemma MetadataKeepsCache(r: Refresh, answer: MetadataAnswer)
    ensures SameCache(WithTotals(WithMetadata(r, answer)).state, r.state)
  {
  }

  lemma StatusKeepsCache(u: Unicode, st: State, a: Answers)
    ensures if a.Status().StatusIs? then
              SameCache(WithStatus(u, st, a, a.Status().installed).state, Available(st, a, a.Status().installed).0)
            else SameCache(WithoutStatus(st, a).state, st)
  {
    hide Available, AvailableStages, CountUpdates, Durations, CountWhere, VersionOrder;
  }

  lemma SameFilterSameRead(answer: IndexAnswer, a: seq<InstalledPackage>, b: seq<InstalledPackage>)
    requires CleanInstalled(a) && CleanInstalled(b) && InstalledRevision(a) == InstalledRevision(b)
    ensures ReadAvailable(answer, a) == ReadAvailable(answer, b)
  {
    EqualRevisionsEqualFilters(a, b);
  }

  /** The refresh would take its packages from the cache. */
  predicate HitsCache(st: State, a: Answers) {
    a.Status().StatusIs? && a.revision.RevisionIs? && CacheHit(st, a.revision.revision, a.Status().installed)
  }

  /** Hit or miss, the available packages are the ones a direct read would give, provided it would
      give any. */
  lemma LookupIsRead(u: Unicode, run: seq<Answers>, a: Answers)
    requires Consistent(run + [a]) && a.Status().StatusIs? && !a.revision.RevisionFails?
    requires Readable(a.indexes)
    ensures Available(StateAfter(u, run), a, a.Status().installed).1 == ReadAvailable(a.indexes, a.Status().installed)
  {
    hide Readable, CleanInstalled, ReadAvailable, InstalledRevision;
    var st := StateAfter(u, run);
    CacheHasOrigin(u, run);
    if HitsCache(st, a) {
      var b :| b in run && CachesRead(st, b);
      assert a in run + [a] && b in run + [a];
      ReadsWhenReadable(b.indexes, b.Status().installed);
      SameFilterSameRead(a.indexes, a.Status().installed, b.Status().installed);
    }
  }

  /** A collector with the same counters and nothing cached. */
  function Cacheless(st: State): State {
    st.(available := [])
  }

  /** Everything a refresh reports except cache totals and stage timings. */
  function Reported(r: Refresh): (Stats, seq<CollectError>) {
    (r.stats.(cacheHits := 0, cacheMisses := 0, stageDurations := map[]), r.errors)
  }

  ghost predicate SameCounters(s: State, t: State) {
    && s.statusReadErrors == t.statusReadErrors && s.statusParseErrors == t.statusParseErrors
    && s.listsReadErrors == t.listsReadErrors && s.listsParseErrors == t.listsParseErrors
  }

  ghost predicate SameReport(q: Refresh, r: Refresh) {
    && SameCounters(q.state, r.state) && q.errors == r.errors
    && q.stats.(stageDurations := map[]) == r.stats.(stageDurations := map[])
  }

  lemma AvailableKeepsErrors(s: State, a: Answers, installed: seq<InstalledPackage>)
    ensures SameCounters(Available(s, a, installed).0, s)
  {
    hide ReadAvailable, CacheHit, InstalledRevision;
  }

  lemma WithStatusFollowsRead(u: Unicode, s: State, t: State, a: Answers, installed: seq<InstalledPackage>)
    requires SameCounters(s, t)
    requires Available(s, a, installed).1 == Available(t, a, installed).1
    ensures SameReport(WithStatus(u, s, a, installed), WithStatus(u, t, a, installed))
  {
    AvailableKeepsErrors(s, a, installed);
    AvailableKeepsErrors(t, a, installed);
    hide Available, AvailableStages, CountUpdates, Durations, CountWhere, VersionOrder;
  }

  lemma MetadataFollows(q: Refresh, r: Refresh, answer: MetadataAnswer)
    requires SameReport(q, r)
    ensures Reported(WithTotals(WithMetadata(q, answer))) == Reported(WithTotals(WithMetadata(r, answer)))
  {
  }

  lemma ReportedFollowsRead(u: Unicode, s: State, t: State, a: Answers)
    requires SameCounters(s, t)
    requires a.Status().StatusIs? ==> Available(s, a, a.Status().installed).1 == Available(t, a, a.Status().installed).1
    ensures Reported(Collected(u, s, a)) == Reported(Collected(u, t, a))
  {
    if a.Status().StatusIs? {
      WithStatusFollowsRead(u, s, t, a, a.Status().installed);
      MetadataFollows(WithStatus(u, s, a, a.Status().installed), WithStatus(u, t, a, a.Status().installed), a.metadata);
    } else {
      WithoutStatusFollows(s, t, a);
      MetadataFollows(WithoutStatus(s, a), WithoutStatus(t, a), a.metadata);
    }
    hide WithStatus, WithoutStatus, WithTotals, WithMetadata, Reported;
  }

  lemma WithoutStatusFollows(s: State, t: State, a: Answers)
    requires SameCounters(s, t) && !a.Status().StatusIs?
    ensures SameReport(WithoutStatus(s, a), WithoutStatus(t, a))
  {
    hide Durations;
  }

  /** The cache answers although the indexes cannot be read at this moment. */
  predicate HitsUnreadable(st: State, a: Answers) {
    HitsCache(st, a) && !Readable(a.indexes)
  }

  /** A hit reports no index error, and a refresh that cannot read the indexes reports one. */
  lemma UnreadableHitIsSeen(u: Unicode, s: State, t: State, a: Answers)
    requires HitsUnreadable(s, a) && !HitsCache(t, a)
    ensures Reported(Collected(u, s, a)) != Reported(Collected(u, t, a))
  {
    ReadsWhenReadable(a.indexes, a.Status().installed);
    hide Readable, ReadAvailable, CacheHit, InstalledRevision;
    IndexErrorIsFirst(u, s, a);
    IndexErrorIsFirst(u, t, a);
  }

  function ListsErrors(): seq<CollectError> {
    [IndexReadFailed, IndexParseFailed]
  }

  lemma IndexErrorIsFirst(u: Unicode, st: State, a: Answers)
    requires a.Status().StatusIs?
    ensures var errors := Collected(u, st, a).errors;
            Available(st, a, a.Status().installed).1.Ok? <==> errors == [] || errors[0] !in ListsErrors()
  {
    hide Available, AvailableStages, CountUpdates, Durations, CountWhere, VersionOrder;
  }

  /** After any run, a refresh reports the same statistics and errors as one without a cache, if and
      only if it is not the case that it hits the cache while the indexes cannot be read. */
  lemma CacheIsTransparent(u: Unicode, run: seq<Answers>, a: Answers)
    requires Consistent(run + [a])
    ensures Reported(Collected(u, StateAfter(u, run), a)) == Reported(Collected(u, Cacheless(StateAfter(u, run)), a))
       <==> !HitsUnreadable(StateAfter(u, run), a)
  {
    var st := StateAfter(u, run);
    hide Collected, Reported, Consistent, Readable, StateAfter, ReadAvailable, InstalledRevision;
    if HitsUnreadable(st, a) {
      UnreadableHitIsSeen(u, st, Cacheless(st), a);
    } else {
      if HitsCache(st, a) {
        LookupIsRead(u, run, a);
      }
      ReportedFollowsRead(u, st, Cacheless(st), a);
    }
  }

  // ----- The reported counts -----

  /** In buffers every paragraph filters alike, as it does without repeated fields. */
  ghost predicate FilterSafe(answer: IndexAnswer) {
    answer.BuffersAre? ==>
      forall index, p | index in answer.indexes && p in Paragraphs(TrimSpace(index.data)) :: FiltersAlike(p)
  }

  lemma ReadCountsAreUnfiltered(u: Unicode, answer: IndexAnswer, installed: seq<InstalledPackage>)
    requires FilterSafe(answer)
    ensures var read, all, vo := ReadAvailable(answer, installed), Unfiltered(answer), VersionOrder(u);
            && read.Ok? == all.Ok?
            && (all.Ok? ==> CountUpdates(vo, installed, read.value.available) == CountUpdates(vo, installed, all.value))
  {
    hide CountUpdates, ParseStreams, ParseIndexes, VersionOrder;
    if answer.StreamsAre? {
      StreamFilterIsTransparent(VersionOrder(u), installed, answer.streams);
    } else if answer.BuffersAre? {
      BytesFilterIsTransparent(VersionOrder(u), installed, answer.indexes);
    }
  }

  lemma CountsFollowRead(u: Unicode, st: State, a: Answers)
    requires a.Status().StatusIs?
    ensures var read := Available(st, a, a.Status().installed).1;
            Collected(u, st, a).stats.updates ==
              if read.Ok? then CountUpdates(VersionOrder(u), a.Status().installed, read.value.available) else NO_UPDATES
  {
    hide VersionOrder, ReadAvailable, CacheHit, CountUpdates, Durations, InstalledRevision, CountWhere, Available;
  }

  /** Through cache, filter, parsers and grouping index: the five reported counts are the ones
      obtained by scanning every package of the indexes for every installed package. */
  lemma ReportedCountsAreDirect(u: Unicode, run: seq<Answers>, a: Answers)
    requires Consistent(run + [a]) && FilterSafe(a.indexes)
    requires a.Status().StatusIs? && !a.revision.RevisionFails? && Readable(a.indexes)
    ensures Collected(u, StateAfter(u, run), a).stats.updates
         == CountUpdates(VersionOrder(u), a.Status().installed, Unfiltered(a.indexes).value)
  {
    LookupIsRead(u, run, a);
    CountsFollowRead(u, StateAfter(u, run), a);
    ReadCountsAreUnfiltered(u, a.indexes, a.Status().installed);
  }

  /** A hit, too, reports the counts of the indexes at its revision, as any refresh of the run that
      could read them found them, even while they cannot be read. */
  lemma HitCountsAreOfRevision(u: Unicode, run: seq<Answers>, a: Answers, b: Answers)
    requires Consistent(run) && HitsCache(StateAfter(u, run), a) && CleanInstalled(a.Status().installed)
    requires b in run && b.revision == a.revision && Readable(b.indexes) && FilterSafe(b.indexes)
    ensures Collected(u, StateAfter(u, run), a).stats.updates
         == CountUpdates(VersionOrder(u), a.Status().installed, Unfiltered(b.indexes).value)
  {
    hide CleanInstalled, ReadAvailable, InstalledRevision, CountUpdates, Collected, Unfiltered;
    var st := StateAfter(u, run);
    CacheHasOrigin(u, run);
    var c :| c in run && CachesRead(st, c);
    ReadsWhenReadable(c.indexes, c.Status().installed);
    SameFilterSameRead(b.indexes, a.Status().installed, c.Status().installed);
    CountsFollowRead(u, st, a);
    ReadCountsAreUnfiltered(u, b.indexes, a.Status().installed);
  }
}
