/** The collector's cache as a protocol: calls of `availablePackages` interleaved step by step with
    each other and with an environment that rewrites the lists directory at any moment. */
module IndexCache {
  import opened Packages
  import opened Versions
  import opened PackageIndexes
  import opened ParserLaws
  import opened Revisions

  // ----- State -----

  /** The lists directory at one moment. */
  datatype World = World(revision: string, files: seq<PackageIndex>)

  /** What listing the directory tells about a file, before it is opened. */
  datatype Header = Header(name: string, priority: int, backports: bool)

  datatype Outcome = Outcome(available: seq<AvailablePackage>, valid: bool)

  /** Where one call stands. `Reading` also records the moment of its latest look at the directory,
      `Done` which files the value was parsed from. */
  datatype Phase =
    | Revised
    | Missed
    | Reading(listing: seq<Header>, files: seq<PackageIndex>, looked: nat)
    | Done(value: Outcome, source: seq<PackageIndex>, hit: bool)
    | Failed

  /** A call, with the revision it read; `start` is the moment it read it. */
  datatype Call = Call(installed: seq<InstalledPackage>, revision: string, start: nat, phase: Phase)

  /** The cached fields; the rest records how the entry came about: `start` is the moment its reader
      read the revision, `looked` the moment it read the last file. */
  datatype CacheEntry = CacheEntry(value: Outcome, revision: string, installedRevision: string,
                                   start: nat, looked: nat, installed: seq<InstalledPackage>, source: seq<PackageIndex>)

  /** `log` holds every state the directory has been in; the last one is current. */
  datatype System = System(log: seq<World>, cache: Option<CacheEntry>, hits: nat, misses: nat, calls: map<nat, Call>)

  function Now(s: System): int {
    |s.log| - 1
  }

  function HeaderOf(f: PackageIndex): Header {
    Header(f.name, f.priority, f.backports)
  }

  function Headers(files: seq<PackageIndex>): seq<Header> {
    seq(|files|, i requires 0 <= i < |files| => HeaderOf(files[i]))
  }

  predicate DistinctNames(files: seq<PackageIndex>) {
    forall i, j | 0 <= i < j < |files| :: files[i].name != files[j].name
  }

  /** Position of the file called `name`, or `|files|`. */
  function Find(files: seq<PackageIndex>, name: string): (i: nat)
    ensures i <= |files|
    ensures i < |files| ==> files[i].name == name
  {
    if files == [] || files[0].name == name then 0 else 1 + Find(files[1..], name)
  }

  /** Reading and parsing a set of files for one list of installed packages. */
  function ParseFor(files: seq<PackageIndex>, installed: seq<InstalledPackage>): Result<Outcome> {
    match ParseStreams(AsStreams(files), Some(FilterOf(installed)))
    case Ok(available) => Ok(Outcome(available, |files| > 0))
    case ReadError => ReadError
    case ParseError => ParseError
  }

  // ----- Steps -----

  datatype Step =
    | Change(world: World)
    | Begin(id: nat, installed: seq<InstalledPackage>)
    | Check(id: nat)
    | List(id: nat)
    | Read(id: nat)
    | Fail(id: nat)
    | Store(id: nat)

  predicate IsBusy(p: Phase) {
    !p.Done? && !p.Failed?
  }

  /** Revisions are never reused; everything else may happen in any order. */
  predicate Enabled(s: System, step: Step) {
    && |s.log| > 0
    && match step
       case Change(world) => DistinctNames(world.files) && forall w | w in s.log :: w.revision != world.revision
       case Begin(id, installed) => id !in s.calls && CleanInstalled(installed)
       case Check(id) => id in s.calls && s.calls[id].phase.Revised?
       case List(id) => id in s.calls && s.calls[id].phase.Missed?
       case Read(id) =>
         && id in s.calls && s.calls[id].phase.Reading?
         && var p := s.calls[id].phase;
            && |p.files| < |p.listing|
            && Find(s.log[Now(s)].files, p.listing[|p.files|].name) < |s.log[Now(s)].files|
       case Fail(id) => id in s.calls && (s.calls[id].phase.Missed? || s.calls[id].phase.Reading?)
       case Store(id) =>
         id in s.calls && s.calls[id].phase.Reading? && |s.calls[id].phase.files| == |s.calls[id].phase.listing|
  }

  /** A nil cached list never hits, and an empty result is nil. */
  predicate Hits(s: System, c: Call) {
    && s.cache.Some?
    && |s.cache.value.value.available| > 0
    && s.cache.value.revision == c.revision
    && s.cache.value.installedRevision == InstalledRevision(c.installed)
  }

  function SetPhase(s: System, id: nat, p: Phase): System
    requires id in s.calls
  {
    s.(calls := s.calls[id := s.calls[id].(phase := p)])
  }

  function Apply(s: System, step: Step): System
    requires Enabled(s, step)
  {
    match step
    case Change(world) => s.(log := s.log + [world])
    case Begin(id, installed) => s.(calls := s.calls[id := Call(installed, s.log[Now(s)].revision, Now(s), Revised)])
    case Check(id) =>
      var c := s.calls[id];
      if Hits(s, c) then SetPhase(s, id, Done(s.cache.value.value, s.cache.value.source, true)).(hits := s.hits + 1)
      else SetPhase(s, id, Missed).(misses := s.misses + 1)
    case List(id) => SetPhase(s, id, Reading(Headers(s.log[Now(s)].files), [], Now(s)))
    case Read(id) =>
      var p, files := s.calls[id].phase, s.log[Now(s)].files;
      var h := p.listing[|p.files|];
      var f := PackageIndex(h.name, files[Find(files, h.name)].data, h.priority, h.backports);
      SetPhase(s, id, p.(files := p.files + [f], looked := Now(s)))
    case Fail(id) => SetPhase(s, id, Failed)
    case Store(id) =>
      var c := s.calls[id];
      var files := c.phase.files;
      match ParseFor(files, c.installed)
      case Ok(value) =>
        var entry := CacheEntry(value, c.revision, InstalledRevision(c.installed), c.start, c.phase.looked,
                                c.installed, files);
        SetPhase(s, id, Done(value, files, false)).(cache := Some(entry))
      case ReadError => SetPhase(s, id, Failed)
      case ParseError => SetPhase(s, id, Failed)
  }

  predicate Initial(s: System) {
    |s.log| == 1 && DistinctNames(s.log[0].files) && s.cache.None? && s.hits == 0 && s.misses == 0 && s.calls == map[]
  }

  /** `states` is a run taking `steps`. */
  predicate IsRun(states: seq<System>, steps: seq<Step>) {
    && |states| == |steps| + 1
    && Initial(states[0])
    && forall i | 0 <= i < |steps| :: Enabled(states[i], steps[i]) && states[i + 1] == Apply(states[i], steps[i])
  }

  // ----- The invariant -----

  ghost predicate HadData(log: seq<World>, from: nat, to: nat, f: PackageIndex) {
    exists k | from <= k <= to && k < |log| ::
      Find(log[k].files, f.name) < |log[k].files| && log[k].files[Find(log[k].files, f.name)].data == f.data
  }

  ghost predicate HadListing(log: seq<World>, from: nat, to: nat, listing: seq<Header>) {
    exists k | from <= k <= to && k < |log| :: listing == Headers(log[k].files)
  }

  /** The directory had exactly these files at one moment of the interval, and every file had the
      recorded contents at some moment of it. */
  ghost predicate ReadWithin(log: seq<World>, from: nat, to: nat, files: seq<PackageIndex>) {
    HadListing(log, from, to, Headers(files)) && forall f | f in files :: HadData(log, from, to, f)
  }

  ghost predicate GoodLog(log: seq<World>) {
    && |log| > 0
    && (forall i | 0 <= i < |log| :: DistinctNames(log[i].files))
    && (forall i, j | 0 <= i < j < |log| :: log[i].revision != log[j].revision)
  }

  ghost predicate GoodEntry(log: seq<World>, e: CacheEntry) {
    && e.start <= e.looked < |log|
    && e.revision == log[e.start].revision
    && e.installedRevision == InstalledRevision(e.installed) && CleanInstalled(e.installed)
    && ReadWithin(log, e.start, e.looked, e.source)
    && ParseFor(e.source, e.installed) == Ok(e.value)
  }

  ghost predicate GoodPhase(log: seq<World>, c: Call)
    requires |log| > 0
  {
    match c.phase
    case Reading(listing, files, looked) =>
      && c.start <= looked < |log|
      && |files| <= |listing|
      && Headers(files) == listing[..|files|]
      && HadListing(log, c.start, looked, listing)
      && forall f | f in files :: HadData(log, c.start, looked, f)
    case Done(value, source, hit) =>
      ReadWithin(log, c.start, |log| - 1, source) && ParseFor(source, c.installed) == Ok(value)
    case _ => true
  }

  ghost predicate GoodCall(log: seq<World>, c: Call) {
    && c.start < |log|
    && c.revision == log[c.start].revision
    && CleanInstalled(c.installed)
    && GoodPhase(log, c)
  }

  ghost predicate Inv(s: System) {
    && GoodLog(s.log)
    && (s.cache.Some? ==> GoodEntry(s.log, s.cache.value))
    && (forall id | id in s.calls :: GoodCall(s.log, s.calls[id]))
    && s.hits + s.misses == |Checked(s)|
  }

  /** The calls that have passed the cache check. */
  function Checked(s: System): set<nat> {
    set id | id in s.calls && !s.calls[id].phase.Revised?
  }

  lemma WidenData(log: seq<World>, more: seq<World>, from: nat, to: nat, to': nat, f: PackageIndex)
    requires log <= more && to <= to' && HadData(log, from, to, f)
    ensures HadData(more, from, to', f)
  {
    var k :| from <= k <= to && k < |log| &&
      Find(log[k].files, f.name) < |log[k].files| && log[k].files[Find(log[k].files, f.name)].data == f.data;
    assert more[k] == log[k];
  }

  lemma WidenListing(log: seq<World>, more: seq<World>, from: nat, to: nat, to': nat, listing: seq<Header>)
    requires log <= more && to <= to' && HadListing(log, from, to, listing)
    ensures HadListing(more, from, to', listing)
  {
    var k :| from <= k <= to && k < |log| && listing == Headers(log[k].files);
    assert more[k] == log[k];
  }

  lemma WidenRead(log: seq<World>, more: seq<World>, from: nat, to: nat, to': nat, files: seq<PackageIndex>)
    requires log <= more && to <= to' && ReadWithin(log, from, to, files)
    ensures ReadWithin(more, from, to', files)
  {
    WidenListing(log, more, from, to, to', Headers(files));
    forall f | f in files ensures HadData(more, from, to', f) {
      WidenData(log, more, from, to, to', f);
    }
  }

  /** Growing the log keeps what is known of a call. */
  lemma WidenCall(log: seq<World>, world: World, c: Call)
    requires |log| > 0 && GoodCall(log, c)
    ensures GoodCall(log + [world], c)
  {
    var more, n := log + [world], |log| - 1;
    match c.phase
    case Reading(listing, files, looked) =>
      WidenListing(log, more, c.start, looked, looked, listing);
      forall f | f in files ensures HadData(more, c.start, looked, f) {
        WidenData(log, more, c.start, looked, looked, f);
      }
    case Done(value, source, hit) =>
      WidenRead(log, more, c.start, n, n + 1, source);
    case _ =>
  }

  /** The parse depends on the installed packages only through their revision string. */
  lemma SameRevisionSameParse(files: seq<PackageIndex>, a: seq<InstalledPackage>, b: seq<InstalledPackage>)
    requires CleanInstalled(a) && CleanInstalled(b) && InstalledRevision(a) == InstalledRevision(b)
    ensures ParseFor(files, a) == ParseFor(files, b)
  {
    EqualRevisionsEqualFilters(a, b);
  }

  lemma RevisionFixesStart(log: seq<World>, i: nat, j: nat)
    requires GoodLog(log) && i < |log| && j < |log| && log[i].revision == log[j].revision
    ensures i == j
  {
  }

  lemma CheckKeepsCall(s: System, id: nat)
    requires Inv(s) && Enabled(s, Check(id))
    ensures GoodCall(s.log, Apply(s, Check(id)).calls[id])
  {
    var c := s.calls[id];
    if Hits(s, c) {
      var e := s.cache.value;
      RevisionFixesStart(s.log, e.start, c.start);
      WidenRead(s.log, s.log, e.start, e.looked, Now(s), e.source);
      SameRevisionSameParse(e.source, e.installed, c.installed);
    }
  }

  lemma ListKeepsCall(s: System, id: nat)
    requires Inv(s) && Enabled(s, List(id))
    ensures GoodCall(s.log, Apply(s, List(id)).calls[id])
  {
    var c := s.calls[id];
    assert HadListing(s.log, c.start, Now(s), Headers(s.log[Now(s)].files));
  }

  lemma ReadingGrows(log: seq<World>, c: Call, f: PackageIndex)
    requires GoodCall(log, c) && c.phase.Reading? && |c.phase.files| < |c.phase.listing|
    requires HeaderOf(f) == c.phase.listing[|c.phase.files|] && HadData(log, c.start, |log| - 1, f)
    ensures GoodCall(log, c.(phase := c.phase.(files := c.phase.files + [f], looked := |log| - 1)))
  {
    var p := c.phase;
    WidenListing(log, log, c.start, p.looked, |log| - 1, p.listing);
    forall g | g in p.files ensures HadData(log, c.start, |log| - 1, g) {
      WidenData(log, log, c.start, p.looked, |log| - 1, g);
    }
    hide ParseFor, InstalledRevision, CleanInstalled, HadData, HadListing;
    assert Headers(p.files + [f]) == Headers(p.files) + [HeaderOf(f)] == p.listing[..|p.files| + 1];
  }

  lemma ReadKeepsCall(s: System, id: nat)
    requires Inv(s) && Enabled(s, Read(id))
    ensures GoodCall(s.log, Apply(s, Read(id)).calls[id])
  {
    hide ParseFor, InstalledRevision, CleanInstalled, Find, Headers, GoodPhase, GoodEntry, Checked;
    var c := s.calls[id];
    var f := Apply(s, Read(id)).calls[id].phase.files[|c.phase.files|];
    assert HadData(s.log, c.start, Now(s), f);
    ReadingGrows(s.log, c, f);
  }

  lemma StoreKeepsCall(s: System, id: nat)
    requires Inv(s) && Enabled(s, Store(id))
    ensures var t := Apply(s, Store(id));
            GoodCall(s.log, t.calls[id]) && (t.cache.Some? ==> GoodEntry(s.log, t.cache.value))
  {
    var p := s.calls[id].phase;
    assert p.listing[..|p.files|] == p.listing;
    assert ReadWithin(s.log, s.calls[id].start, p.looked, p.files);
    WidenRead(s.log, s.log, s.calls[id].start, p.looked, Now(s), p.files);
  }

  lemma CheckedAfter(s: System, step: Step)
    requires Inv(s) && Enabled(s, step)
    ensures Checked(Apply(s, step)) == Checked(s) + if step.Check? then {step.id} else {}
  {
    hide Inv, ParseFor, InstalledRevision, CleanInstalled, Find, Headers, DistinctNames;
  }

  /** A step of a call leaves the directory and the other calls alone. */
  lemma OnlyOneMoves(s: System, step: Step)
    requires Enabled(s, step) && !step.Change? && !step.Begin?
    ensures var t := Apply(s, step);
            && step.id in s.calls && t.log == s.log && t.calls.Keys == s.calls.Keys
            && (forall id | id in s.calls && id != step.id :: t.calls[id] == s.calls[id])
            && (!step.Store? ==> t.cache == s.cache)
            && t.hits + t.misses == s.hits + s.misses + (if step.Check? then 1 else 0)
            && (step.Check? ==> step.id !in Checked(s))
  {
    hide ParseFor, InstalledRevision, Headers, Hits, Find;
  }

  /** Every step keeps the invariant. */
  lemma StepKeepsInv(s: System, step: Step)
    requires Inv(s) && Enabled(s, step)
    ensures Inv(Apply(s, step))
  {
    hide GoodCall, GoodEntry, GoodLog, ParseFor, InstalledRevision, CleanInstalled, Headers, DistinctNames, Find, Hits;
    var t := Apply(s, step);
    CheckedAfter(s, step);
    if !step.Change? && !step.Begin? {
      OnlyOneMoves(s, step);
      hide Apply;
    }
    match step {
      case Change(world) => ChangeKeepsInv(s, world);
      case Begin(id, installed) => BeginKeepsInv(s, id, installed);
      case Check(id) => CheckKeepsCall(s, id);
      case List(id) => ListKeepsCall(s, id);
      case Read(id) => ReadKeepsCall(s, id);
      case Fail(id) => FailKeepsCall(s, id);
      case Store(id) => StoreKeepsCall(s, id);
    }
  }

  lemma ChangeKeepsInv(s: System, world: World)
    requires Inv(s) && Enabled(s, Change(world))
    ensures Inv(Apply(s, Change(world)))
  {
    var t := Apply(s, Change(world));
    CheckedAfter(s, Change(world));
    forall i, j | 0 <= i < j < |t.log| ensures t.log[i].revision != t.log[j].revision {
      assert s.log[i] in s.log;
    }
    forall id | id in t.calls ensures GoodCall(t.log, t.calls[id]) {
      WidenCall(s.log, world, s.calls[id]);
    }
    if s.cache.Some? {
      var e := s.cache.value;
      WidenRead(s.log, t.log, e.start, e.looked, e.looked, e.source);
    }
  }

  lemma BeginKeepsInv(s: System, id: nat, installed: seq<InstalledPackage>)
    requires Inv(s) && Enabled(s, Begin(id, installed))
    ensures Inv(Apply(s, Begin(id, installed)))
  {
    CheckedAfter(s, Begin(id, installed));
    hide ParseFor, InstalledRevision, Find, Headers, DistinctNames, Checked;
  }

  lemma FailKeepsCall(s: System, id: nat)
    requires Inv(s) && Enabled(s, Fail(id))
    ensures GoodCall(s.log, Apply(s, Fail(id)).calls[id])
  {
  }

  lemma {:induction false} RunsKeepInv(states: seq<System>, steps: seq<Step>, n: nat)
    requires IsRun(states, steps) && n < |states|
    ensures Inv(states[n])
  {
    if n == 0 {
      assert Checked(states[0]) == {};
    } else {
      RunsKeepInv(states, steps, n - 1);
      StepKeepsInv(states[n - 1], steps[n - 1]);
    }
  }
}
