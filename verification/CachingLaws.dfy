/** What the collector's cache holds after a run, and exactly when a refresh hits it. */
module CachingLaws {
  import opened Versions
  import opened PackageIndexes
  import opened Revisions
  import opened IndexCache
  import opened Collection
  import opened CollectionLaws

  /** What the refresh would get as available packages. */
  function Looked(st: State, a: Answers): Result<Outcome> {
    if a.Status().StatusIs? then Available(st, a, a.Status().installed).1 else ReadError
  }

  /** The key of the refresh's installed packages. */
  function InstalledKeyOf(a: Answers): string {
    if a.Status().StatusIs? then InstalledRevision(a.Status().installed) else ""
  }

  /** A lookup at a revision that got packages. */
  predicate Succeeds(st: State, a: Answers) {
    a.Status().StatusIs? && a.revision.RevisionIs? && Looked(st, a).Ok?
  }

  /** The last successful lookup at a revision, or -1. */
  function LastLookup(u: Unicode, run: seq<Answers>): (k: int)
    ensures -1 <= k < |run|
  {
    if run == [] then -1
    else
      var init, a := run[..|run| - 1], run[|run| - 1];
      if Succeeds(StateAfter(u, init), a) then |run| - 1 else LastLookup(u, init)
  }

  lemma {:induction false} LastLookupIs(u: Unicode, run: seq<Answers>)
    ensures var k := LastLookup(u, run);
            && (k >= 0 ==> Succeeds(StateAfter(u, run[..k]), run[k]))
            && forall j | k < j < |run| :: !Succeeds(StateAfter(u, run[..j]), run[j])
  {
    hide Succeeds, StateAfter;
    if run != [] {
      var init := run[..|run| - 1];
      LastLookupIs(u, init);
      forall j | 0 <= j < |init| ensures init[..j] == run[..j] && init[j] == run[j] {
      }
    }
  }

  /** `st` caches the outcome of the lookup that `a` makes in `before`. */
  ghost predicate HoldsLookup(st: State, before: State, a: Answers) {
    && a.revision == RevisionIs(st.packageRevision)
    && st.installedRevision == InstalledKeyOf(a)
    && Looked(before, a) == Ok(Outcome(st.available, st.valid))
  }

  lemma AvailableHolds(st: State, a: Answers)
    requires a.Status().StatusIs?
    ensures var t := Available(st, a, a.Status().installed).0;
            if Succeeds(st, a) then HoldsLookup(t, st, a) else SameCache(t, st)
  {
    hide ReadAvailable, InstalledRevision;
  }

  lemma CollectedHolds(u: Unicode, st: State, a: Answers)
    ensures var t := Collected(u, st, a).state;
            if Succeeds(st, a) then HoldsLookup(t, st, a) else SameCache(t, st)
  {
    if a.Status().StatusIs? {
      AvailableHolds(st, a);
    }
    StatusKeepsCache(u, st, a);
    hide Available, WithStatus, WithoutStatus, WithTotals, WithMetadata, InstalledRevision;
    MetadataKeepsCache(if a.Status().StatusIs? then WithStatus(u, st, a, a.Status().installed) else WithoutStatus(st, a),
                       a.metadata);
  }

  /** After any run the cache holds the outcome of the last successful lookup at a revision, and is
      empty if there was none. */
  lemma {:induction false} LastLookupIsCached(u: Unicode, run: seq<Answers>)
    ensures var st, k := StateAfter(u, run), LastLookup(u, run);
            if k < 0 then SameCache(st, FRESH) else HoldsLookup(st, StateAfter(u, run[..k]), run[k])
  {
    hide Collected, Succeeds, Looked, HoldsLookup, LastLookup, StateAfter;
    if run == [] {
      NothingLooked(u);
    } else {
      var init, a := run[..|run| - 1], run[|run| - 1];
      LastLookupIsCached(u, init);
      CollectedHolds(u, StateAfter(u, init), a);
      var k := LastLookup(u, init);
      LastLookupStep(u, run);
      StateStep(u, run);
      assert k >= 0 ==> init[..k] == run[..k] && init[k] == run[k];
      if !Succeeds(StateAfter(u, init), a) && k >= 0 {
        SameCacheHolds(StateAfter(u, run), StateAfter(u, init), StateAfter(u, run[..k]), run[k]);
      }
    }
  }

  lemma NothingLooked(u: Unicode)
    ensures LastLookup(u, []) == -1 && StateAfter(u, []) == FRESH
  {
  }

  lemma StateStep(u: Unicode, run: seq<Answers>)
    requires run != []
    ensures StateAfter(u, run) == Collected(u, StateAfter(u, run[..|run| - 1]), run[|run| - 1]).state
  {
    hide Collected;
  }

  lemma SameCacheHolds(t: State, s: State, before: State, a: Answers)
    requires SameCache(t, s) && HoldsLookup(s, before, a)
    ensures HoldsLookup(t, before, a)
  {
    hide Looked, InstalledKeyOf;
  }

  lemma LastLookupStep(u: Unicode, run: seq<Answers>)
    requires run != []
    ensures var init, a := run[..|run| - 1], run[|run| - 1];
            LastLookup(u, run) == if Succeeds(StateAfter(u, init), a) then |run| - 1 else LastLookup(u, init)
  {
    hide Succeeds, StateAfter;
  }

  /** A refresh hits exactly when the last successful lookup was at its revision, for installed
      packages with its key, and got at least one package. */
  lemma HitsExactly(u: Unicode, run: seq<Answers>, b: Answers)
    ensures var s, t, k := StateAfter(u, run), StateAfter(u, run + [b]), LastLookup(u, run);
            var hit := && b.Status().StatusIs? && k >= 0 && b.revision == run[k].revision
                       && InstalledKeyOf(b) == InstalledKeyOf(run[k])
                       && Looked(StateAfter(u, run[..k]), run[k]).Ok?
                       && Looked(StateAfter(u, run[..k]), run[k]).value.available != [];
            && t.hits == s.hits + (if hit then 1 else 0)
            && t.misses == s.misses + (if LooksUp()(b) && !hit then 1 else 0)
  {
    LastLookupIsCached(u, run);
    assert (run + [b])[..|run|] == run;
    LookupsAreCounted(u, StateAfter(u, run), b);
    hide Collected, InstalledRevision, Available;
  }

  /** A second refresh at the same revision and for the same installed packages hits. */
  lemma SecondRefreshHits(u: Unicode, run: seq<Answers>, a: Answers, b: Answers)
    requires Succeeds(StateAfter(u, run), a) && Looked(StateAfter(u, run), a).value.available != []
    requires b.Status().StatusIs? && b.revision == a.revision
    requires InstalledKeyOf(b) == InstalledKeyOf(a)
    ensures StateAfter(u, run + [a, b]).hits == StateAfter(u, run + [a]).hits + 1
    ensures StateAfter(u, run + [a, b]).misses == StateAfter(u, run + [a]).misses
  {
    hide StateAfter, InstalledKeyOf, Collected, CacheHit, Available;
    var more := run + [a];
    assert more[..|run|] == run && more[|run|] == a && |more| - 1 == |run|;
    assert more + [b] == run + [a, b];
    LastLookupStep(u, more);
    HitsExactly(u, more, b);
    assert Looked(StateAfter(u, run), a).Ok?;
    hide Looked, LastLookup, Succeeds;
  }
}
