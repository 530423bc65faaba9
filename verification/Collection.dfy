/** The collector: one refresh, its counters and its cache. Calls are sequential here; the module
    `IndexCache` interleaves them. */
module Collection {
  import opened Packages
  import opened Counting
  import opened Versions
  import opened PackageIndexes
  import opened Revisions
  import opened IndexCache
  import opened StatusDatabases

  // ----- What the outside world answers during one refresh -----

  /** The status database cannot be read, holds text without records, or holds these records. */
  datatype StatusAnswer = StatusUnreadable | StatusUnparsable | StatusIs(installed: seq<InstalledPackage>)

  /** `NotRevisioned`: the source has no revisions, so nothing is cached. */
  datatype RevisionAnswer = NotRevisioned | RevisionFails | RevisionIs(revision: string)

  /** The indexes come as streams, when the source offers them, or as buffers. */
  datatype IndexAnswer =
    | StreamsFail
    | StreamsAre(streams: seq<PackageIndexStream>)
    | BuffersFail
    | BuffersAre(indexes: seq<PackageIndex>)

  datatype Metadata = Metadata(statusModified: int, listsModified: int, fileCounts: map<string, int>)

  datatype MetadataAnswer = NoMetadata | MetadataFails | MetadataIs(metadata: Metadata)

  /** `fallback` answers the plain index request that only a refresh without status records makes;
      `elapsed` says how long each stage takes. */
  datatype Answers = Answers(statusText: Option<string>, revision: RevisionAnswer, indexes: IndexAnswer,
                             fallback: Option<seq<PackageIndex>>, metadata: MetadataAnswer, elapsed: string -> real)
  {
    function Status(): StatusAnswer {
      if statusText.None? then StatusUnreadable
      else match StrictRecords(statusText.value)
        case None => StatusUnparsable
        case Some(installed) => StatusIs(installed)
    }
  }

  // ----- Results -----

  datatype SourceHealth = SourceHealth(up: bool, valid: bool, readErrors: nat, parseErrors: nat)

  datatype CollectError = StatusReadFailed | StatusParseFailed | IndexReadFailed | IndexParseFailed | MetadataFailed

  datatype Stats = Stats(installed: nat, broken: nat, updates: UpdateCounts, upgradeMetricsValid: bool,
                         cacheHits: nat, cacheMisses: nat, metadata: Metadata, stageDurations: map<string, real>,
                         statusHealth: SourceHealth, listsHealth: SourceHealth)

  const NO_UPDATES := UpdateCounts(0, 0, 0, 0, 0)
  const NO_METADATA := Metadata(0, 0, map[])
  const UNKNOWN := SourceHealth(false, false, 0, 0)

  // ----- The collector's state -----

  /** The fields of the collector; an empty cached list stands for nil. */
  datatype State = State(available: seq<AvailablePackage>, valid: bool, packageRevision: string, installedRevision: string,
                         hits: nat, misses: nat,
                         statusReadErrors: nat, statusParseErrors: nat, listsReadErrors: nat, listsParseErrors: nat)

  const FRESH := State([], false, "", "", 0, 0, 0, 0, 0, 0)

  function ReadAvailable(answer: IndexAnswer, installed: seq<InstalledPackage>): Result<Outcome> {
    var filter := Some(FilterOf(installed));
    match answer
    case StreamsFail => ReadError
    case BuffersFail => ReadError
    case StreamsAre(streams) =>
      (match ParseStreams(streams, filter)
       case Ok(available) => Ok(Outcome(available, |streams| > 0))
       case ReadError => ReadError
       case ParseError => ParseError)
    case BuffersAre(indexes) => Ok(Outcome(ParseIndexes(indexes, filter), |indexes| > 0))
  }

  predicate CacheHit(st: State, revision: string, installed: seq<InstalledPackage>) {
    st.available != [] && st.packageRevision == revision && st.installedRevision == InstalledRevision(installed)
  }

  function StoreOutcome(st: State, o: Outcome, revision: string, installed: seq<InstalledPackage>): State {
    st.(available := o.available, valid := o.valid, packageRevision := revision,
        installedRevision := InstalledRevision(installed))
  }

  function Available(st: State, a: Answers, installed: seq<InstalledPackage>): (State, Result<Outcome>) {
    match a.revision
    case RevisionFails => (st, ReadError)
    case NotRevisioned => (st.(misses := st.misses + 1), ReadAvailable(a.indexes, installed))
    case RevisionIs(revision) =>
      if CacheHit(st, revision, installed) then (st.(hits := st.hits + 1), Ok(Outcome(st.available, st.valid)))
      else
        var missed := st.(misses := st.misses + 1);
        var read := ReadAvailable(a.indexes, installed);
        (if read.Ok? then StoreOutcome(missed, read.value, revision, installed) else missed, read)
  }

  /** The stages whose durations a refresh records. */
  function AvailableStages(st: State, a: Answers, installed: seq<InstalledPackage>): set<string> {
    match a.revision
    case RevisionFails => {"index_revision"}
    case NotRevisioned => ReadStages(a.indexes)
    case RevisionIs(revision) =>
      {"index_revision"} + if CacheHit(st, revision, installed) then {} else ReadStages(a.indexes)
  }

  function ReadStages(answer: IndexAnswer): set<string> {
    if answer.StreamsFail? || answer.BuffersFail? then {"index_read"} else {"index_read", "index_parse"}
  }

  function Durations(a: Answers, stages: set<string>): map<string, real> {
    map stage | stage in stages :: a.elapsed(stage)
  }

  // ----- One refresh -----

  datatype Refresh = Refresh(state: State, stats: Stats, errors: seq<CollectError>)

  /** A refresh that obtained status records. */
  function WithStatus(u: Unicode, st: State, a: Answers, installed: seq<InstalledPackage>): Refresh {
    var (next, read) := Available(st, a, installed);
    var stages := {"status_read", "status_parse"} + AvailableStages(st, a, installed);
    var base := Stats(CountWhere(installed, IsInstalledPackage), CountWhere(installed, IsBrokenPackage), NO_UPDATES,
                      false, 0, 0, NO_METADATA, Durations(a, stages), UNKNOWN.(up := true, valid := true), UNKNOWN);
    match read
    case ReadError => Refresh(next.(listsReadErrors := next.listsReadErrors + 1), base, [IndexReadFailed])
    case ParseError =>
      Refresh(next.(listsParseErrors := next.listsParseErrors + 1),
              base.(listsHealth := UNKNOWN.(up := true)), [IndexParseFailed])
    case Ok(o) =>
      Refresh(next,
              base.(updates := CountUpdates(VersionOrder(u), installed, o.available), upgradeMetricsValid := o.valid,
                    listsHealth := UNKNOWN.(up := true, valid := o.valid), stageDurations := Durations(a, stages + {"count"})),
              [])
  }

  /** A refresh without status records still asks whether the indexes can be read. */
  function WithoutStatus(st: State, a: Answers): Refresh
    requires !a.Status().StatusIs?
  {
    var readable := a.Status().StatusUnparsable?;
    var failed := if readable then st.(statusParseErrors := st.statusParseErrors + 1)
                  else st.(statusReadErrors := st.statusReadErrors + 1);
    var error := if readable then StatusParseFailed else StatusReadFailed;
    var stages := if readable then {"status_read", "status_parse"} else {"status_read"};
    var base := Stats(0, 0, NO_UPDATES, false, 0, 0, NO_METADATA, Durations(a, stages), UNKNOWN.(up := readable), UNKNOWN);
    match a.fallback
    case None => Refresh(failed.(listsReadErrors := failed.listsReadErrors + 1), base, [error, IndexReadFailed])
    case Some(indexes) => Refresh(failed, base.(listsHealth := UNKNOWN.(up := true, valid := |indexes| > 0)), [error])
  }

  function WithMetadata(r: Refresh, answer: MetadataAnswer): Refresh {
    match answer
    case NoMetadata => r
    case MetadataFails =>
      Refresh(r.state.(listsReadErrors := r.state.listsReadErrors + 1), r.stats, r.errors + [MetadataFailed])
    case MetadataIs(metadata) => r.(stats := r.stats.(metadata := metadata))
  }

  /** The totals are copied into the result at the very end. */
  function WithTotals(r: Refresh): Refresh {
    var st := r.state;
    r.(stats := r.stats.(
         cacheHits := st.hits, cacheMisses := st.misses,
         statusHealth := r.stats.statusHealth.(readErrors := st.statusReadErrors, parseErrors := st.statusParseErrors),
         listsHealth := r.stats.listsHealth.(readErrors := st.listsReadErrors, parseErrors := st.listsParseErrors)))
  }

  function Collected(u: Unicode, st: State, a: Answers): Refresh {
    var status := a.Status();
    WithTotals(WithMetadata(if status.StatusIs? then WithStatus(u, st, a, status.installed) else WithoutStatus(st, a), a.metadata))
  }

  predicate IsInstalledPackage(pkg: InstalledPackage) {
    IsInstalled(pkg.status)
  }

  predicate IsBrokenPackage(pkg: InstalledPackage) {
    IsBroken(pkg.status)
  }

  // ----- The class -----

  class Collector {
    var cachedAvailable: seq<AvailablePackage>
    var cachedUpgradeMetricsValid: bool
    var cachedPackageRevision: string
    var cachedInstalledRevision: string
    var cacheHits: nat
    var cacheMisses: nat
    var statusReadErrors: nat
    var statusParseErrors: nat
    var listsReadErrors: nat
    var listsParseErrors: nat

    constructor ()
      ensures Current() == FRESH
    {
      cachedAvailable, cachedUpgradeMetricsValid := [], false;
      cachedPackageRevision, cachedInstalledRevision := "", "";
      cacheHits, cacheMisses := 0, 0;
      statusReadErrors, statusParseErrors, listsReadErrors, listsParseErrors := 0, 0, 0, 0;
    }

    function Current(): State
      reads this
    {
      State(cachedAvailable, cachedUpgradeMetricsValid, cachedPackageRevision, cachedInstalledRevision,
            cacheHits, cacheMisses, statusReadErrors, statusParseErrors, listsReadErrors, listsParseErrors)
    }

    method ReadAvailablePackages(a: Answers, installed: seq<InstalledPackage>) returns (read: Result<Outcome>)
      ensures read == ReadAvailable(a.indexes, installed)
    {
      match a.indexes
      case StreamsFail => return ReadError;
      case StreamsAre(streams) =>
        var filter := InstalledPackageFilter(installed);
        var parsed := ParseAvailablePackagesFromStreams(streams, Some(filter));
        match parsed {
          case Ok(available) => return Ok(Outcome(available, |streams| > 0));
          case ReadError => return ReadError;
          case ParseError => return ParseError;
        }
      case BuffersFail => return ReadError;
      case BuffersAre(indexes) =>
        var filter := InstalledPackageFilter(installed);
        var available := ParseAvailablePackages(indexes, Some(filter));
        return Ok(Outcome(available, |indexes| > 0));
    }

    method AvailablePackages(a: Answers, installed: seq<InstalledPackage>) returns (read: Result<Outcome>)
      modifies this
      ensures (Current(), read) == Available(old(Current()), a, installed)
    {
      hide ReadAvailable, InstalledRevision;
      var installedRevision := InstalledPackageRevision(installed);
      if a.revision.RevisionFails? {
        return ReadError;
      }
      if a.revision.RevisionIs? {
        if cachedAvailable != [] && cachedPackageRevision == a.revision.revision && cachedInstalledRevision == installedRevision {
          cacheHits := cacheHits + 1;
          return Ok(Outcome(cachedAvailable, cachedUpgradeMetricsValid));
        }
        cacheMisses := cacheMisses + 1;
      } else {
        cacheMisses := cacheMisses + 1;
      }
      read := ReadAvailablePackages(a, installed);
      if !read.Ok? {
        return;
      }
      if a.revision.RevisionIs? {
        cachedAvailable := read.value.available;
        cachedUpgradeMetricsValid := read.value.valid;
        cachedPackageRevision := a.revision.revision;
        cachedInstalledRevision := installedRevision;
      }
    }

    /** One refresh: the new fields, the statistics and the joined errors. */
    method Collect(u: Unicode, a: Answers) returns (stats: Stats, errors: seq<CollectError>)
      modifies this
      ensures Refresh(Current(), stats, errors) == Collected(u, old(Current()), a)
    {
      hide StrictRecords;
      var r: Refresh;
      var records := None;
      if a.statusText.Some? {
        records := ParseInstalledPackagesStrict(a.statusText.value);
      }
      if records.Some? {
        r := CollectUpdates(u, a, records.value);
      } else {
        r := CollectWithoutStatus(a);
      }
      stats, errors := r.stats, r.errors;
      match a.metadata {
        case NoMetadata =>
        case MetadataFails =>
          listsReadErrors := listsReadErrors + 1;
          errors := errors + [MetadataFailed];
        case MetadataIs(metadata) =>
          stats := stats.(metadata := metadata);
      }
      stats := stats.(
        cacheHits := cacheHits, cacheMisses := cacheMisses,
        statusHealth := stats.statusHealth.(readErrors := statusReadErrors, parseErrors := statusParseErrors),
        listsHealth := stats.listsHealth.(readErrors := listsReadErrors, parseErrors := listsParseErrors));
    }

    method CollectUpdates(u: Unicode, a: Answers, installed: seq<InstalledPackage>) returns (r: Refresh)
      modifies this
      ensures r == WithStatus(u, old(Current()), a, installed) && r.state == Current()
    {
      var stages := {"status_read", "status_parse"} + AvailableStages(Current(), a, installed);
      var stats := Stats(CountWhere(installed, IsInstalledPackage), CountWhere(installed, IsBrokenPackage), NO_UPDATES,
                         false, 0, 0, NO_METADATA, Durations(a, stages), UNKNOWN.(up := true, valid := true), UNKNOWN);
      var errors: seq<CollectError> := [];
      var read := AvailablePackages(a, installed);
      match read {
        case ReadError =>
          listsReadErrors := listsReadErrors + 1;
          errors := [IndexReadFailed];
        case ParseError =>
          stats := stats.(listsHealth := UNKNOWN.(up := true));
          listsParseErrors := listsParseErrors + 1;
          errors := [IndexParseFailed];
        case Ok(o) =>
          stats := stats.(listsHealth := UNKNOWN.(up := true, valid := o.valid), upgradeMetricsValid := o.valid);
          var updates := CountAll(u, installed, o.available);
          stats := stats.(updates := updates, stageDurations := Durations(a, stages + {"count"}));
      }
      r := Refresh(Current(), stats, errors);
    }

    method CollectWithoutStatus(a: Answers) returns (r: Refresh)
      requires !a.Status().StatusIs?
      modifies this
      ensures r == WithoutStatus(old(Current()), a) && r.state == Current()
    {
      hide StrictRecords, Durations;
      var stats := Stats(0, 0, NO_UPDATES, false, 0, 0, NO_METADATA, map[], UNKNOWN, UNKNOWN);
      var errors: seq<CollectError>;
      if a.statusText.None? {
        stats := stats.(stageDurations := Durations(a, {"status_read"}));
        statusReadErrors := statusReadErrors + 1;
        errors := [StatusReadFailed];
      } else {
        stats := stats.(stageDurations := Durations(a, {"status_read", "status_parse"}), statusHealth := UNKNOWN.(up := true));
        statusParseErrors := statusParseErrors + 1;
        errors := [StatusParseFailed];
      }
      match a.fallback {
        case None =>
          listsReadErrors := listsReadErrors + 1;
          errors := errors + [IndexReadFailed];
        case Some(indexes) =>
          stats := stats.(listsHealth := UNKNOWN.(up := true, valid := |indexes| > 0));
      }
      r := Refresh(Current(), stats, errors);
    }
  }
}
