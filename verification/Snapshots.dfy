/** Replay of the last good snapshot, and what is exported over a run of refreshes. */
module Snapshots {
  import opened Counting
  import opened Versions
  import opened PackageIndexes
  import opened Collection
  import opened CollectionLaws

  datatype SnapshotError = CollectFailed(error: CollectError) | RebootCheckFailed

  /** What the inner snapshotter delivers; no errors means a nil error. */
  datatype Inner = Inner(stats: Stats, rebootRequired: bool, duration: real, errors: seq<SnapshotError>)

  datatype Snapshot = Snapshot(attemptTime: int, success: bool, errors: seq<SnapshotError>,
                               stats: Stats, rebootRequired: bool, duration: real)

  function Own(inner: Inner, attemptTime: int): Snapshot {
    Snapshot(attemptTime, inner.errors == [], inner.errors, inner.stats, inner.rebootRequired, inner.duration)
  }

  /** The business part of `last`, with everything about the current attempt taken from `now`. */
  function Replayed(last: Snapshot, now: Snapshot): Snapshot {
    last.(attemptTime := now.attemptTime, success := false, errors := now.errors, duration := now.duration,
          stats := last.stats.(statusHealth := now.stats.statusHealth, listsHealth := now.stats.listsHealth))
  }

  /** The observer's fields; `last` is `None` until the first success. */
  type Observer = Option<Snapshot>

  function Observed(o: Observer, inner: Inner, attemptTime: int): (Observer, Snapshot) {
    var now := Own(inner, attemptTime);
    if inner.errors == [] then (Some(now), now)
    else (o, if o.None? then now else Replayed(o.value, now))
  }

  class ObservedSnapshotter {
    var lastSnapshot: Snapshot
    var hasSuccessful: bool

    constructor ()
      ensures Current() == None
    {
      var health := SourceHealth(false, false, 0, 0);
      lastSnapshot := Snapshot(0, false, [], Stats(0, 0, NO_UPDATES, false, 0, 0, NO_METADATA, map[], health, health), false, 0.0);
      hasSuccessful := false;
    }

    function Current(): Observer
      reads this
    {
      if hasSuccessful then Some(lastSnapshot) else None
    }

    method Observe(inner: Inner, attemptTime: int) returns (snapshot: Snapshot)
      modifies this
      ensures (Current(), snapshot) == Observed(old(Current()), inner, attemptTime)
    {
      snapshot := Snapshot(attemptTime, inner.errors == [], inner.errors, inner.stats, inner.rebootRequired, inner.duration);
      if inner.errors == [] {
        lastSnapshot := snapshot;
        hasSuccessful := true;
        return;
      }
      if !hasSuccessful {
        return;
      }
      var cached := lastSnapshot;
      cached := cached.(attemptTime := attemptTime);
      cached := cached.(success := false);
      cached := cached.(errors := inner.errors);
      cached := cached.(duration := snapshot.duration);
      cached := cached.(stats := cached.stats.(statusHealth := snapshot.stats.statusHealth));
      cached := cached.(stats := cached.stats.(listsHealth := snapshot.stats.listsHealth));
      return cached;
    }
  }

  // ----- Runs of the observer -----

  datatype Attempt = Attempt(inner: Inner, time: int)

  function ObserverAfter(run: seq<Attempt>): Observer {
    if run == [] then None
    else Observed(ObserverAfter(run[..|run| - 1]), run[|run| - 1].inner, run[|run| - 1].time).0
  }

  /** What the last attempt of the run returns. */
  function Returned(run: seq<Attempt>): Snapshot
    requires run != []
  {
    Observed(ObserverAfter(run[..|run| - 1]), run[|run| - 1].inner, run[|run| - 1].time).1
  }

  /** The latest attempt without errors, or -1. */
  function LatestSuccess(run: seq<Attempt>): (k: int)
    ensures -1 <= k < |run|
    ensures k >= 0 ==> run[k].inner.errors == []
    ensures forall j | k < j < |run| :: run[j].inner.errors != []
  {
    if run == [] then -1
    else if run[|run| - 1].inner.errors == [] then |run| - 1
    else LatestSuccess(run[..|run| - 1])
  }

  lemma {:induction false} ObserverHoldsLatestSuccess(run: seq<Attempt>)
    ensures var k := LatestSuccess(run);
            ObserverAfter(run) == if k < 0 then None else Some(Own(run[k].inner, run[k].time))
  {
    if run != [] {
      ObserverHoldsLatestSuccess(run[..|run| - 1]);
    }
  }

  /** After any run: time, error, duration and both source-health records are the current attempt's,
      success means no error, and the rest is the latest success's (the attempt's own before any). */
  lemma ReturnedIsLatestSuccess(run: seq<Attempt>)
    requires run != []
    ensures var now := run[|run| - 1];
            var s := Returned(run);
            var source := if LatestSuccess(run) < 0 then now.inner else run[LatestSuccess(run)].inner;
            && s.attemptTime == now.time && s.errors == now.inner.errors && s.duration == now.inner.duration
            && s.success == (now.inner.errors == [])
            && s.stats.statusHealth == now.inner.stats.statusHealth && s.stats.listsHealth == now.inner.stats.listsHealth
            && s.rebootRequired == source.rebootRequired
            && s.stats == source.stats.(statusHealth := s.stats.statusHealth, listsHealth := s.stats.listsHealth)
  {
    ObserverHoldsLatestSuccess(run[..|run| - 1]);
  }

  // ----- Collector and observer together -----

  /** One scheduled refresh: the answers to the collector, the reboot check and the clock. */
  datatype Tick = Tick(answers: Answers, rebootRequired: bool, rebootFails: bool, duration: real, time: int)

  function InnerOf(r: Refresh, t: Tick): Inner {
    Inner(r.stats, !t.rebootFails && t.rebootRequired, t.duration,
          seq(|r.errors|, i requires 0 <= i < |r.errors| => CollectFailed(r.errors[i]))
            + if t.rebootFails then [RebootCheckFailed] else [])
  }

  datatype System = System(collector: State, observer: Observer)

  function TickStep(u: Unicode, s: System, t: Tick): (System, Snapshot) {
    var r := Collected(u, s.collector, t.answers);
    var (observer, snapshot) := Observed(s.observer, InnerOf(r, t), t.time);
    (System(r.state, observer), snapshot)
  }

  function SystemAfter(u: Unicode, ticks: seq<Tick>): System {
    if ticks == [] then System(FRESH, None)
    else TickStep(u, SystemAfter(u, ticks[..|ticks| - 1]), ticks[|ticks| - 1]).0
  }

  /** The snapshot exported after the last of `ticks`. */
  function Exported(u: Unicode, ticks: seq<Tick>): Snapshot
    requires ticks != []
  {
    TickStep(u, SystemAfter(u, ticks[..|ticks| - 1]), ticks[|ticks| - 1]).1
  }

  /** What an attempt means for the exported snapshot: it succeeds exactly when neither the collection
      nor the reboot check reports an error, and a success exports its own report. */
  lemma TickReports(u: Unicode, s: System, t: Tick)
    ensures var (next, snapshot) := TickStep(u, s, t);
            var r := Collected(u, s.collector, t.answers);
            && next.collector == r.state
            && snapshot.attemptTime == t.time && snapshot.duration == t.duration
            && (snapshot.success <==> r.errors == [] && !t.rebootFails)
            && (RebootCheckFailed in snapshot.errors <==> t.rebootFails)
            && (forall e :: CollectFailed(e) in snapshot.errors <==> e in r.errors)
            && (snapshot.success ==> snapshot.stats == r.stats && snapshot.rebootRequired == t.rebootRequired)
            && (!snapshot.success && s.observer.None? ==>
                  snapshot.stats == r.stats && (snapshot.rebootRequired <==> t.rebootRequired && !t.rebootFails))
  {
    hide Collected;
    var r := Collected(u, s.collector, t.answers);
    var failures := seq(|r.errors|, i requires 0 <= i < |r.errors| => CollectFailed(r.errors[i]));
    forall e ensures CollectFailed(e) in failures <==> e in r.errors {
      if e in r.errors {
        var i :| 0 <= i < |r.errors| && r.errors[i] == e;
        assert failures[i] == CollectFailed(e);
      }
    }
  }

  /** The six exported totals. */
  datatype Totals = Totals(hits: nat, misses: nat, statusReadErrors: nat, statusParseErrors: nat,
                           listsReadErrors: nat, listsParseErrors: nat)

  function TotalsOf(s: Stats): Totals {
    Totals(s.cacheHits, s.cacheMisses, s.statusHealth.readErrors, s.statusHealth.parseErrors,
           s.listsHealth.readErrors, s.listsHealth.parseErrors)
  }

  predicate NoLess(a: Totals, b: Totals) {
    && a.hits >= b.hits && a.misses >= b.misses
    && a.statusReadErrors >= b.statusReadErrors && a.statusParseErrors >= b.statusParseErrors
    && a.listsReadErrors >= b.listsReadErrors && a.listsParseErrors >= b.listsParseErrors
  }

  function StateTotals(st: State): Totals {
    Totals(st.hits, st.misses, st.statusReadErrors, st.statusParseErrors, st.listsReadErrors, st.listsParseErrors)
  }

  /** What a system in this state last exported: current error totals, and cache totals that are
      current until the first success and frozen at the latest success after it. */
  function LastTotals(s: System): Totals {
    if s.observer.None? then StateTotals(s.collector)
    else StateTotals(s.collector).(hits := s.observer.value.stats.cacheHits, misses := s.observer.value.stats.cacheMisses)
  }

  lemma CollectedTotals(u: Unicode, st: State, a: Answers)
    ensures TotalsOf(Collected(u, st, a).stats) == StateTotals(Collected(u, st, a).state)
    ensures NoLess(StateTotals(Collected(u, st, a).state), StateTotals(st))
  {
    CollectedAccounts(u, st, a);
    hide WithStatus, WithoutStatus, WithMetadata;
  }

  lemma TickTotals(u: Unicode, s: System, t: Tick)
    requires NoLess(StateTotals(s.collector), LastTotals(s))
    ensures var (next, snapshot) := TickStep(u, s, t);
            && TotalsOf(snapshot.stats) == LastTotals(next)
            && NoLess(LastTotals(next), LastTotals(s))
            && NoLess(StateTotals(next.collector), LastTotals(next))
  {
    CollectedTotals(u, s.collector, t.answers);
    hide Collected;
  }

  lemma {:induction false} TotalsInvariant(u: Unicode, ticks: seq<Tick>)
    ensures NoLess(StateTotals(SystemAfter(u, ticks).collector), LastTotals(SystemAfter(u, ticks)))
  {
    hide TickStep;
    if ticks != [] {
      TotalsInvariant(u, ticks[..|ticks| - 1]);
      TickTotals(u, SystemAfter(u, ticks[..|ticks| - 1]), ticks[|ticks| - 1]);
    }
  }

  /** The exported totals never decrease from one refresh to the next, although failed refreshes
      replay old cache totals beside current error totals. */
  lemma ExportedTotalsNeverDecrease(u: Unicode, ticks: seq<Tick>, t: Tick)
    requires ticks != []
    ensures NoLess(TotalsOf(Exported(u, ticks + [t]).stats), TotalsOf(Exported(u, ticks).stats))
  {
    var init := ticks[..|ticks| - 1];
    assert (ticks + [t])[..|ticks|] == ticks;
    TotalsInvariant(u, init);
    TotalsInvariant(u, ticks);
    TickTotals(u, SystemAfter(u, init), ticks[|ticks| - 1]);
    TickTotals(u, SystemAfter(u, ticks), t);
    hide TickStep;
  }

  // ----- The exported validity flag -----

  /** The exported flag says that both sources are valid, as documented of the metric. */
  predicate FlagAgrees(s: Snapshot) {
    s.stats.upgradeMetricsValid == (s.stats.statusHealth.valid && s.stats.listsHealth.valid)
  }

  /** A refresh whose sources are both valid and whose metadata cannot be read. */
  function ValidButFailing(): Tick {
    Tick(Answers(Some(""), NotRevisioned, BuffersAre([PackageIndex("x_Packages", "", 500, false)]), None, MetadataFails,
                 (stage: string) => 0.0), false, false, 0.0, 1)
  }

  /** A refresh that cannot read the status database. */
  function WithoutDatabase(): Tick {
    Tick(Answers(None, NotRevisioned, BuffersFail, None, NoMetadata, (stage: string) => 0.0), false, false, 0.0, 1)
  }

  lemma ValidButFailingReport(u: Unicode, st: State)
    ensures var r := Collected(u, st, ValidButFailing().answers);
            r.errors == [MetadataFailed] && r.stats.statusHealth.valid && r.stats.listsHealth.valid
  {
    hide VersionOrder, CountUpdates, Durations;
  }

  lemma WithoutDatabaseReport(u: Unicode, st: State)
    ensures var r := Collected(u, st, WithoutDatabase().answers);
            r.errors != [] && !r.stats.statusHealth.valid
  {
    hide Durations;
  }

  /** Until the first success the exported flag agrees with the exported source health after every
      refresh; from then on some refresh makes them disagree, because a failed refresh replays the
      flag beside the current health. */
  lemma FlagAgreesUntilFirstSuccess(u: Unicode, s: System)
    ensures (forall t :: FlagAgrees(TickStep(u, s, t).1)) <==> s.observer.None?
  {
    if s.observer.None? {
      forall t ensures FlagAgrees(TickStep(u, s, t).1) {
        ValidWhenBothSourcesAre(u, s.collector, t.answers);
      }
    } else {
      ValidButFailingReport(u, s.collector);
      WithoutDatabaseReport(u, s.collector);
      hide Collected;
      var t := if s.observer.value.stats.upgradeMetricsValid then WithoutDatabase() else ValidButFailing();
      assert !FlagAgrees(TickStep(u, s, t).1);
    }
  }
}
