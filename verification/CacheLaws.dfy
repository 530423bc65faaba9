/** What the interleaved cache guarantees, and where a hit can be stale. */
module CacheLaws {
  import opened PackageIndexes
  import opened Revisions
  import opened IndexCache

  /** Every completed call, hit or miss, under any interleaving, returns what parsing a set of files
      for its own installed packages returns; the directory listed exactly these files at one moment
      of the call, and each had these contents at some moment of the call. */
  lemma CompletedCallsAreFresh(states: seq<System>, steps: seq<Step>, n: nat, id: nat)
    requires IsRun(states, steps) && n < |states|
    requires id in states[n].calls && states[n].calls[id].phase.Done?
    ensures var s := states[n];
            var c := s.calls[id];
            && c.start < |s.log| && c.revision == s.log[c.start].revision
            && ReadWithin(s.log, c.start, Now(s), c.phase.source)
            && ParseFor(c.phase.source, c.installed) == Ok(c.phase.value)
  {
    RunsKeepInv(states, steps, n);
    assert GoodCall(states[n].log, states[n].calls[id]);
  }

  /** Hits and misses together count the calls that got past the revision step. */
  lemma HitsAndMissesCountCalls(states: seq<System>, steps: seq<Step>, n: nat)
    requires IsRun(states, steps) && n < |states|
    ensures states[n].hits + states[n].misses == |Checked(states[n])|
  {
    RunsKeepInv(states, steps, n);
  }

  /** The calls that completed without reading a file. */
  function Spared(s: System): set<nat> {
    set id | id in s.calls && s.calls[id].phase.Done? && s.calls[id].phase.hit
  }

  /** Hits count the calls that completed without reading a file, under any interleaving. */
  lemma {:induction false} HitsCountSpared(states: seq<System>, steps: seq<Step>, n: nat)
    requires IsRun(states, steps) && n < |states|
    ensures states[n].hits == |Spared(states[n])|
  {
    if n == 0 {
      assert Spared(states[0]) == {};
    } else {
      HitsCountSpared(states, steps, n - 1);
      SparedAfter(states[n - 1], steps[n - 1]);
    }
  }

  lemma SparedAfter(s: System, step: Step)
    requires Enabled(s, step) && s.hits == |Spared(s)|
    ensures Apply(s, step).hits == |Spared(Apply(s, step))|
  {
    if step.Check? {
      SparedByCheck(s, step.id);
    } else {
      OthersSpareNone(s, step);
    }
  }

  lemma SparedByCheck(s: System, id: nat)
    requires Enabled(s, Check(id)) && s.hits == |Spared(s)|
    ensures Apply(s, Check(id)).hits == |Spared(Apply(s, Check(id)))|
  {
    CheckSettles(s, id);
    hide Apply, Enabled, Hits;
    OneMoreSpared(s, Apply(s, Check(id)), id);
  }

  lemma OneMoreSpared(s: System, t: System, id: nat)
    requires id in s.calls && t.calls.Keys == s.calls.Keys && id !in Spared(s)
    requires forall other | other in s.calls && other != id :: t.calls[other] == s.calls[other]
    requires t.calls[id].phase.Done? ==> t.calls[id].phase.hit
    ensures |Spared(t)| == |Spared(s)| + if t.calls[id].phase.Done? then 1 else 0
  {
    assert Spared(t) == Spared(s) + if t.calls[id].phase.Done? then {id} else {};
  }

  lemma CheckSettles(s: System, id: nat)
    requires Enabled(s, Check(id))
    ensures id in s.calls
    ensures var t, hit := Apply(s, Check(id)), Hits(s, s.calls[id]);
            && id !in Spared(s) && t.hits == s.hits + (if hit then 1 else 0) && t.calls.Keys == s.calls.Keys
            && (t.calls[id].phase.Done? <==> hit) && (hit ==> t.calls[id].phase.hit)
            && forall other | other in s.calls && other != id :: t.calls[other] == s.calls[other]
  {
    hide Hits, ParseFor, InstalledRevision, CleanInstalled, Find, Headers, DistinctNames;
  }

  lemma OthersSpareNone(s: System, step: Step)
    requires Enabled(s, step) && !step.Check?
    ensures Spared(Apply(s, step)) == Spared(s) && Apply(s, step).hits == s.hits
  {
    hide ParseFor, InstalledRevision, CleanInstalled, Find, Headers, DistinctNames;
  }

  /** What one call stores, the next lookup finds: after a call has parsed files into `value`, and
      until another one stores, a lookup completes at once, with this value, exactly when the value is
      not empty and both calls read the same revision for equally identified installed packages. */
  lemma StoredIsFound(states: seq<System>, steps: seq<Step>, i: nat, j: nat, value: Outcome)
    requires IsRun(states, steps) && i < j < |steps| && steps[i].Store? && steps[j].Check?
    requires forall k | i < k < j :: !steps[k].Store?
    requires steps[i].id in states[i].calls && states[i].calls[steps[i].id].phase.Reading?
    requires var a := states[i].calls[steps[i].id]; ParseFor(a.phase.files, a.installed) == Ok(value)
    requires steps[j].id in states[j].calls && steps[j].id in states[j + 1].calls
    ensures var a, b := states[i].calls[steps[i].id], states[j].calls[steps[j].id];
            var found := |value.available| > 0 && a.revision == b.revision
              && InstalledRevision(a.installed) == InstalledRevision(b.installed);
            states[j + 1].calls[steps[j].id].phase == if found then Done(value, a.phase.files, true) else Missed
  {
    EntryStays(states, steps, i + 1, j);
    assert Enabled(states[i], steps[i]) && states[i + 1] == Apply(states[i], steps[i]);
    assert Enabled(states[j], steps[j]) && states[j + 1] == Apply(states[j], steps[j]);
    hide ParseFor, InstalledRevision, CleanInstalled, Find, Headers, DistinctNames;
  }

  lemma {:induction false} EntryStays(states: seq<System>, steps: seq<Step>, i: nat, j: nat)
    requires IsRun(states, steps) && i <= j < |states|
    requires forall k | i <= k < j :: !steps[k].Store?
    ensures states[j].cache == states[i].cache
  {
    if i < j {
      EntryStays(states, steps, i, j - 1);
      assert Enabled(states[j - 1], steps[j - 1]) && states[j] == Apply(states[j - 1], steps[j - 1]);
      hide ParseFor, InstalledRevision, CleanInstalled, Find, Headers, DistinctNames;
    }
  }

  lemma {:induction false} FindOwn(files: seq<PackageIndex>, i: nat)
    requires DistinctNames(files) && i < |files|
    ensures Find(files, files[i].name) == i
  {
    if i > 0 {
      assert files[0].name != files[i].name;
      FindOwn(files[1..], i - 1);
    }
  }

  /** A read that spans a single moment is the directory of that moment. */
  lemma SingleMomentIsExact(log: seq<World>, i: nat, files: seq<PackageIndex>)
    requires i < |log| && DistinctNames(log[i].files) && ReadWithin(log, i, i, files)
    ensures files == log[i].files
  {
    var now := log[i].files;
    assert Headers(files) == Headers(now);
    assert |files| == |Headers(files)| == |now|;
    forall j | 0 <= j < |files| ensures files[j] == now[j] {
      assert Headers(files)[j] == Headers(now)[j];
      assert files[j] in files && HadData(log, i, i, files[j]);
      FindOwn(now, j);
    }
  }

  /** The value a hit would return is the parse of the directory at the call's revision read. */
  ghost predicate HitIsExact(s: System, c: Call) {
    s.cache.Some? && c.start < |s.log| && ParseFor(s.log[c.start].files, c.installed) == Ok(s.cache.value.value)
  }

  /** An entry whose files were read before the call read its revision is exact for it. */
  lemma EarlierEntriesAreExact(s: System, c: Call)
    requires Inv(s) && GoodCall(s.log, c) && Hits(s, c)
    requires s.cache.value.looked <= c.start
    ensures HitIsExact(s, c)
  {
    var e := s.cache.value;
    RevisionFixesStart(s.log, e.start, c.start);
    SingleMomentIsExact(s.log, c.start, e.source);
    SameRevisionSameParse(e.source, e.installed, c.installed);
  }

  /** Under any interleaving: a hit is exact as long as the call's revision is still current. */
  lemma HitWhileCurrentIsExact(states: seq<System>, steps: seq<Step>, n: nat, id: nat)
    requires IsRun(states, steps) && n < |states|
    requires Enabled(states[n], Check(id)) && Hits(states[n], states[n].calls[id])
    requires states[n].calls[id].revision == states[n].log[Now(states[n])].revision
    ensures HitIsExact(states[n], states[n].calls[id])
  {
    RunsKeepInv(states, steps, n);
    var s := states[n];
    RevisionFixesStart(s.log, s.calls[id].start, Now(s));
    EarlierEntriesAreExact(s, s.calls[id]);
  }

  // ----- Calls that do not overlap -----

  ghost predicate AllIdle(s: System) {
    forall id | id in s.calls :: !IsBusy(s.calls[id].phase)
  }

  /** A call begins only when no other call is under way, as with a single refresh worker. */
  ghost predicate IsSequential(states: seq<System>, steps: seq<Step>) {
    IsRun(states, steps) && forall i | 0 <= i < |steps| && steps[i].Begin? :: AllIdle(states[i])
  }

  /** At most one call is under way, and the entry it may hit was read before it began. */
  ghost predicate SequentialInv(s: System) {
    && Inv(s)
    && (forall i, j | i in s.calls && j in s.calls && IsBusy(s.calls[i].phase) && IsBusy(s.calls[j].phase) :: i == j)
    && (forall id | id in s.calls && s.calls[id].phase.Revised? && s.cache.Some? :: s.cache.value.looked <= s.calls[id].start)
  }

  /** A call that is under way after a step was so before, or has just begun. */
  lemma StillBusy(s: System, step: Step, id: nat)
    requires Enabled(s, step) && id in Apply(s, step).calls && IsBusy(Apply(s, step).calls[id].phase)
    ensures if step.Begin? && step.id == id then Apply(s, step).calls[id].start == Now(s)
            else id in s.calls && IsBusy(s.calls[id].phase) && s.calls[id].start == Apply(s, step).calls[id].start
    ensures Apply(s, step).calls[id].phase.Revised? && !(step.Begin? && step.id == id) ==> s.calls[id].phase.Revised?
    ensures step.Store? && Apply(s, step).calls[id].phase.Revised? ==> id != step.id
    ensures !step.Store? ==> Apply(s, step).cache == s.cache
  {
    hide ParseFor, InstalledRevision, CleanInstalled, Headers, DistinctNames, Find;
  }

  lemma SequentialStep(s: System, step: Step)
    requires SequentialInv(s) && Enabled(s, step) && (step.Begin? ==> AllIdle(s))
    ensures SequentialInv(Apply(s, step))
  {
    StepKeepsInv(s, step);
    var t := Apply(s, step);
    hide Inv, Enabled, Apply;
    forall i, j | i in t.calls && j in t.calls && IsBusy(t.calls[i].phase) && IsBusy(t.calls[j].phase) ensures i == j {
      StillBusy(s, step, i);
      StillBusy(s, step, j);
    }
    forall id | id in t.calls && t.calls[id].phase.Revised? && t.cache.Some?
      ensures t.cache.value.looked <= t.calls[id].start
    {
      EntryBeforeCall(s, step, id);
    }
  }

  lemma EntryBeforeCall(s: System, step: Step, id: nat)
    requires SequentialInv(s) && Enabled(s, step)
    requires id in Apply(s, step).calls && Apply(s, step).calls[id].phase.Revised? && Apply(s, step).cache.Some?
    ensures Apply(s, step).cache.value.looked <= Apply(s, step).calls[id].start
  {
    StillBusy(s, step, id);
    if s.cache.Some? { EntryInPast(s); }
    if step.Store? { StoringIsBusy(s, step.id); }
    hide Inv, Enabled, Apply;
  }

  lemma StoringIsBusy(s: System, id: nat)
    requires Enabled(s, Store(id))
    ensures id in s.calls && IsBusy(s.calls[id].phase)
  {
  }

  lemma EntryInPast(s: System)
    requires Inv(s) && s.cache.Some?
    ensures s.cache.value.looked <= Now(s)
  {
  }

  lemma {:induction false} SequentialRuns(states: seq<System>, steps: seq<Step>, n: nat)
    requires IsSequential(states, steps) && n < |states|
    ensures SequentialInv(states[n])
  {
    if n == 0 {
      RunsKeepInv(states, steps, 0);
    } else {
      SequentialRuns(states, steps, n - 1);
      SequentialStep(states[n - 1], steps[n - 1]);
    }
  }

  /** When calls do not overlap, every hit returns exactly what parsing the directory at the call's
      revision read would return, however the directory changes in between. */
  lemma SequentialHitsAreExact(states: seq<System>, steps: seq<Step>, n: nat, id: nat)
    requires IsSequential(states, steps) && n < |states|
    requires Enabled(states[n], Check(id)) && Hits(states[n], states[n].calls[id])
    ensures HitIsExact(states[n], states[n].calls[id])
  {
    SequentialRuns(states, steps, n);
    EarlierEntriesAreExact(states[n], states[n].calls[id]);
  }
}
