/** The duration histograms: deduplicated, cumulative, per collection and per stage. */
module Histograms {

  /** What a scrape shows of the latest refresh; time 0 is the zero time, before any refresh. */
  datatype Scrape = Scrape(attemptTime: int, duration: real, stages: map<string, real>)

  /** The finite bucket bounds, in seconds. */
  function Bounds(): seq<real> {
    [0.001, 0.002, 0.005, 0.01, 0.025, 0.05, 0.1, 0.25, 0.5, 1.0, 2.5, 5.0, 10.0, 15.0, 30.0, 60.0, 120.0]
  }

  // ----- Reference: what has been observed -----

  function LastTime(history: seq<Scrape>): int {
    if history == [] then 0 else history[|history| - 1].attemptTime
  }

  /** A scrape counts unless it shows no attempt or the attempt observed last. */
  function Keep(history: seq<Scrape>, s: Scrape): seq<Scrape> {
    if s.attemptTime == 0 || s.attemptTime == LastTime(history) then history else history + [s]
  }

  function Kept(scrapes: seq<Scrape>): seq<Scrape> {
    if scrapes == [] then [] else Keep(Kept(scrapes[..|scrapes| - 1]), scrapes[|scrapes| - 1])
  }

  function Durations(history: seq<Scrape>): seq<real> {
    seq(|history|, i requires 0 <= i < |history| => history[i].duration)
  }

  function StageDurations(history: seq<Scrape>, stage: string): seq<real> {
    if history == [] then []
    else
      var last := history[|history| - 1];
      StageDurations(history[..|history| - 1], stage) + if stage in last.stages then [last.stages[stage]] else []
  }

  function Sum(durations: seq<real>): real {
    if durations == [] then 0.0 else Sum(durations[..|durations| - 1]) + durations[|durations| - 1]
  }

  lemma SumSnoc(durations: seq<real>, d: real)
    ensures Sum(durations + [d]) == Sum(durations) + d && Sum([]) == 0.0
  {
    assert (durations + [d])[..|durations|] == durations;
  }

  /** Number of durations not above `bound`. */
  function CountUpTo(durations: seq<real>, bound: real): nat {
    if durations == [] then 0
    else CountUpTo(durations[..|durations| - 1], bound) + if durations[|durations| - 1] <= bound then 1 else 0
  }

  function Cumulative(durations: seq<real>): map<real, nat> {
    map b | b in Bounds() :: CountUpTo(durations, b)
  }

  // ----- Buckets -----

  lemma BoundsIncrease()
    ensures forall i, j | 0 <= i < j < |Bounds()| :: Bounds()[i] < Bounds()[j]
    ensures |Bounds()| == 17
  {
  }

  /** A bucket map: a reference, shared by whoever holds it. */
  class Buckets {
    var counts: map<real, nat>

    constructor (counts: map<real, nat>)
      ensures this.counts == counts
    {
      this.counts := counts;
    }
  }

  method NewDurationBuckets() returns (buckets: Buckets)
    ensures fresh(buckets) && buckets.counts == Cumulative([])
  {
    hide Bounds;
    buckets := new Buckets(map[]);
    for i := 0 to |Bounds()|
      invariant fresh(buckets)
      invariant buckets.counts.Keys == set b | b in Bounds()[..i]
      invariant forall b | b in buckets.counts :: buckets.counts[b] == 0
    {
      buckets.counts := buckets.counts[Bounds()[i] := 0];
    }
    assert Bounds()[..|Bounds()|] == Bounds();
  }

  method ObserveDuration(buckets: Buckets, duration: real, ghost before: seq<real>)
    requires buckets.counts == Cumulative(before)
    modifies buckets
    ensures buckets.counts == Cumulative(before + [duration])
  {
    BoundsIncrease();
    hide Bounds, CountUpTo;
    for i := 0 to |Bounds()|
      invariant buckets.counts.Keys == old(buckets.counts.Keys)
      invariant forall j | 0 <= j < |Bounds()| ::
                  var b := Bounds()[j];
                  buckets.counts[b] == old(buckets.counts[b]) + if j < i && duration <= b then 1 else 0
    {
      if duration <= Bounds()[i] {
        buckets.counts := buckets.counts[Bounds()[i] := buckets.counts[Bounds()[i]] + 1];
      }
    }
    forall b | b in Bounds() ensures buckets.counts[b] == CountUpTo(before + [duration], b) {
      var j :| 0 <= j < |Bounds()| && Bounds()[j] == b;
      CountSnoc(before, duration, b);
    }
  }

  lemma CountSnoc(durations: seq<real>, d: real, bound: real)
    ensures CountUpTo(durations + [d], bound) == CountUpTo(durations, bound) + if d <= bound then 1 else 0
  {
    assert (durations + [d])[..|durations|] == durations;
  }

  /** A copy; nil is copied to an empty map. */
  method CloneDurationBuckets(source: Buckets?) returns (clone: Buckets)
    ensures fresh(clone) && clone.counts == if source == null then map[] else source.counts
  {
    clone := new Buckets(if source == null then map[] else source.counts);
  }

  /** The bounds, in thousandths of a second. */
  lemma BoundsInMilliseconds(i: nat)
    requires i < |Bounds()|
    ensures Bounds()[i] * 1000.0
         == [1, 2, 5, 10, 25, 50, 100, 250, 500, 1000, 2500, 5000, 10000, 15000, 30000, 60000, 120000][i] as real
  {
    BoundsIncrease();
  }

  /** Each bucket holds the number of observations not above its bound. */
  lemma BucketsCountObservations(durations: seq<real>, bound: real)
    requires bound in Bounds()
    ensures Cumulative(durations)[bound] == |set i | 0 <= i < |durations| && durations[i] <= bound|
  {
    CountIsSize(durations, bound);
  }

  lemma {:induction false} CountIsSize(durations: seq<real>, bound: real)
    ensures CountUpTo(durations, bound) == |set i | 0 <= i < |durations| && durations[i] <= bound|
  {
    var counted := set i | 0 <= i < |durations| && durations[i] <= bound;
    if durations == [] {
      assert counted == {};
    } else {
      var init, n := durations[..|durations| - 1], |durations| - 1;
      CountIsSize(init, bound);
      var before := set i | 0 <= i < |init| && init[i] <= bound;
      assert counted == before + if durations[n] <= bound then {n} else {};
    }
  }

  /** The exported sum is the sum of the observations. */
  lemma {:induction false} SumOfTwo(a: seq<real>, b: seq<real>)
    ensures Sum(a + b) == Sum(a) + Sum(b) && Sum([]) == 0.0 && forall d :: Sum([d]) == d
  {
    forall d ensures Sum([d]) == d {
      assert [d][..0] == [];
    }
    if b == [] {
      assert a + b == a;
    } else {
      assert (a + b)[..|a + b| - 1] == a + b[..|b| - 1];
      SumOfTwo(a, b[..|b| - 1]);
    }
  }

  /** Buckets are cumulative: monotone in their bound and never above the count. */
  lemma BucketsAreCumulative(durations: seq<real>, a: real, b: real)
    requires a in Bounds() && b in Bounds() && a <= b
    ensures Cumulative(durations)[a] <= Cumulative(durations)[b] <= |durations|
  {
    CountIsMonotone(durations, a, b);
  }

  lemma {:induction false} CountIsMonotone(durations: seq<real>, a: real, b: real)
    requires a <= b
    ensures CountUpTo(durations, a) <= CountUpTo(durations, b) <= |durations|
  {
    if durations != [] {
      CountIsMonotone(durations[..|durations| - 1], a, b);
    }
  }

  lemma StageDurationsSnoc(history: seq<Scrape>, s: Scrape, stage: string)
    ensures StageDurations(history + [s], stage)
         == StageDurations(history, stage) + if stage in s.stages then [s.stages[stage]] else []
  {
    assert (history + [s])[..|history|] == history;
  }

  /** The row of one stage summarises exactly these durations; there is no row for none. */
  ghost predicate IsRow(counts: map<string, nat>, sums: map<string, real>, buckets: map<string, Buckets>,
                        stage: string, durations: seq<real>)
    reads if stage in buckets then {buckets[stage]} else {}
  {
    if durations == [] then stage !in counts && stage !in sums && stage !in buckets
    else
      && stage in counts && counts[stage] == |durations|
      && stage in sums && sums[stage] == Sum(durations)
      && stage in buckets && buckets[stage].counts == Cumulative(durations)
  }

  // ----- The metric state -----

  class FeatureMetricState {
    var lastObservedAttempt: int
    var lastLoggedErrAttempt: int
    var hasLoggedError: bool
    var collectionCount: nat
    var collectionSum: real
    var collectionBuckets: Buckets?
    var stageCollectionCount: map<string, nat>
    var stageCollectionSum: map<string, real>
    var stageCollectionBuckets: map<string, Buckets>

    /** The scrapes counted so far. */
    ghost var history: seq<Scrape>
    /** The attempts asked about so far. */
    ghost var errorAttempts: seq<int>
    /** The bucket maps handed out so far. */
    ghost var exported: set<Buckets>

    /** The bucket maps the state writes to. */
    ghost function Owned(): set<Buckets>
      reads `collectionBuckets, `stageCollectionBuckets
    {
      (if collectionBuckets == null then {} else {collectionBuckets}) + stageCollectionBuckets.Values
    }

    /** No bucket map serves two histograms. */
    ghost predicate Separate()
      reads `collectionBuckets, `stageCollectionBuckets
    {
      && (forall stage | stage in stageCollectionBuckets :: stageCollectionBuckets[stage] != collectionBuckets)
      && forall a, b | a in stageCollectionBuckets && b in stageCollectionBuckets && a != b ::
           stageCollectionBuckets[a] != stageCollectionBuckets[b]
    }

    ghost predicate StageRow(stage: string, durations: seq<real>)
      reads `stageCollectionCount, `stageCollectionSum, `stageCollectionBuckets
      reads if stage in stageCollectionBuckets then {stageCollectionBuckets[stage]} else {}
    {
      IsRow(stageCollectionCount, stageCollectionSum, stageCollectionBuckets, stage, durations)
    }

    /** The collection histogram summarises exactly these durations; its buckets are nil for none. */
    ghost predicate CollectionRow(durations: seq<real>)
      reads `collectionCount, `collectionSum, `collectionBuckets
      reads if collectionBuckets == null then {} else {collectionBuckets}
    {
      && collectionCount == |durations|
      && collectionSum == Sum(durations)
      && if durations == [] then collectionBuckets == null
         else collectionBuckets != null && collectionBuckets.counts == Cumulative(durations)
    }

    /** All histograms together summarise exactly these scrapes. */
    ghost predicate Summarises(scrapes: seq<Scrape>)
      reads `collectionCount, `collectionSum, `collectionBuckets
      reads `stageCollectionCount, `stageCollectionSum, `stageCollectionBuckets, Owned()
    {
      && CollectionRow(Durations(scrapes))
      && (forall stage :: StageRow(stage, StageDurations(scrapes, stage)))
      && Separate()
    }

    /** Every exported number is the one the history determines, and no exported map is written to. */
    ghost predicate Valid()
      reads this, Owned()
    {
      && lastObservedAttempt == LastTime(history)
      && Summarises(history)
      && exported !! Owned()
      && hasLoggedError == (errorAttempts != [])
      && (errorAttempts != [] ==> lastLoggedErrAttempt == errorAttempts[|errorAttempts| - 1])
    }

    constructor ()
      ensures Valid() && history == [] && errorAttempts == [] && exported == {}
    {
      lastObservedAttempt, lastLoggedErrAttempt, hasLoggedError := 0, 0, false;
      collectionCount, collectionSum, collectionBuckets := 0, 0.0, null;
      stageCollectionCount, stageCollectionSum, stageCollectionBuckets := map[], map[], map[];
      history, errorAttempts, exported := [], [], {};
    }

    /** A scrape is counted once, and every map handed out earlier stays as it was. */
    method ObservePackageSnapshot(s: Scrape)
      requires Valid()
      modifies this, Owned()
      ensures Valid()
      ensures history == Keep(old(history), s) && errorAttempts == old(errorAttempts)
      ensures exported == old(exported) && forall b | b in exported :: b.counts == old(b.counts)
    {
      if s.attemptTime == 0 || s.attemptTime == lastObservedAttempt {
        return;
      }
      hide Summarises, Owned;
      lastObservedAttempt := s.attemptTime;
      ObserveHistograms(s, history);
      history := history + [s];
    }

    method ObserveHistograms(s: Scrape, ghost before: seq<Scrape>)
      requires Summarises(before)
      modifies `collectionCount, `collectionSum, `collectionBuckets
      modifies `stageCollectionCount, `stageCollectionSum, `stageCollectionBuckets, Owned()
      ensures Summarises(before + [s]) && fresh(Owned() - old(Owned()))
    {
      assert Durations(before + [s]) == Durations(before) + [s.duration];
      hide IsRow, StageRow, CollectionRow, Separate, KeepsBuckets, Durations, StageDurations;
      ObserveCollection(s.duration, Durations(before));
      ObserveStages(s, before);
    }

    method ObserveCollection(duration: real, ghost before: seq<real>)
      requires CollectionRow(before) && Separate()
      modifies `collectionCount, `collectionSum, `collectionBuckets
      modifies if collectionBuckets == null then {} else {collectionBuckets}
      ensures CollectionRow(before + [duration])
      ensures forall stage, durations :: old(StageRow(stage, durations)) ==> StageRow(stage, durations)
      ensures Separate() && fresh(Owned() - old(Owned()))
    {
      SumSnoc(before, duration);
      collectionCount := collectionCount + 1;
      collectionSum := collectionSum + duration;
      if collectionBuckets == null {
        collectionBuckets := NewDurationBuckets();
      }
      ObserveDuration(collectionBuckets, duration, before);
    }

    /** The bucket maps of the stages, and none else, belong to the state; new ones are fresh. */
    twostate predicate KeepsBuckets()
      reads `stageCollectionBuckets
    {
      && (forall stage | stage in old(stageCollectionBuckets) ::
            stage in stageCollectionBuckets && stageCollectionBuckets[stage] == old(stageCollectionBuckets[stage]))
      && forall stage | stage in stageCollectionBuckets && stage !in old(stageCollectionBuckets) ::
           fresh(stageCollectionBuckets[stage])
    }

    method ObserveStages(s: Scrape, ghost before: seq<Scrape>)
      requires forall stage :: StageRow(stage, StageDurations(before, stage))
      requires Separate()
      modifies `stageCollectionCount, `stageCollectionSum, `stageCollectionBuckets, stageCollectionBuckets.Values
      ensures forall stage :: StageRow(stage, StageDurations(before + [s], stage))
      ensures forall durations :: old(CollectionRow(durations)) ==> CollectionRow(durations)
      ensures Separate() && KeepsBuckets() && fresh(Owned() - old(Owned()))
    {
      hide IsRow, StageDurations, Sum, Cumulative;
      var remaining := s.stages.Keys;
      while remaining != {}
        invariant remaining <= s.stages.Keys
        invariant Separate() && KeepsBuckets()
        invariant forall stage | stage in remaining :: StageRow(stage, StageDurations(before, stage))
        invariant forall stage | stage !in s.stages :: StageRow(stage, StageDurations(before, stage))
        invariant forall stage | stage in s.stages && stage !in remaining ::
                    StageRow(stage, StageDurations(before, stage) + [s.stages[stage]])
      {
        var stage :| stage in remaining;
        ObserveStage(stage, s.stages[stage], StageDurations(before, stage));
        remaining := remaining - {stage};
      }
      forall stage ensures StageRow(stage, StageDurations(before + [s], stage)) {
        StageDurationsSnoc(before, s, stage);
        assert StageDurations(before, stage) + [] == StageDurations(before, stage);
      }
    }

    /** The bucket map of a stage, empty when the stage is new. */
    method StageBuckets(stage: string) returns (buckets: Buckets)
      requires Separate()
      modifies `stageCollectionBuckets
      ensures Separate() && KeepsBuckets() && stageCollectionBuckets == old(stageCollectionBuckets)[stage := buckets]
      ensures if stage in old(stageCollectionBuckets) then buckets == old(stageCollectionBuckets[stage])
              else fresh(buckets) && buckets.counts == Cumulative([])
      ensures forall other | other in stageCollectionBuckets && other != stage :: stageCollectionBuckets[other] != buckets
    {
      if stage !in stageCollectionBuckets {
        buckets := NewDurationBuckets();
        stageCollectionBuckets := stageCollectionBuckets[stage := buckets];
      }
      buckets := stageCollectionBuckets[stage];
    }

    method ObserveStage(stage: string, duration: real, ghost before: seq<real>)
      requires StageRow(stage, before)
      requires Separate()
      modifies `stageCollectionCount, `stageCollectionSum, `stageCollectionBuckets
      modifies if stage in stageCollectionBuckets then {stageCollectionBuckets[stage]} else {}
      ensures StageRow(stage, before + [duration])
      ensures forall other, durations | other != stage :: old(StageRow(other, durations)) ==> StageRow(other, durations)
      ensures Separate() && KeepsBuckets()
    {
      SumSnoc(before, duration);
      hide Sum, Cumulative, Bounds;
      var count := if stage in stageCollectionCount then stageCollectionCount[stage] else 0;
      stageCollectionCount := stageCollectionCount[stage := count + 1];
      var sum := if stage in stageCollectionSum then stageCollectionSum[stage] else 0.0;
      stageCollectionSum := stageCollectionSum[stage := sum + duration];
      var buckets := StageBuckets(stage);
      hide Separate, KeepsBuckets;
      ObserveDuration(buckets, duration, before);
    }

    /** What a scrape exports: per collection and per stage, the summary of everything observed, in
        bucket maps of its own. */
    method PackageCollectionObservations()
      returns (count: nat, sum: real, buckets: Buckets,
               stageCounts: map<string, nat>, stageSums: map<string, real>, stageBuckets: map<string, Buckets>)
      requires Valid()
      modifies `exported
      ensures Valid() && history == old(history) && errorAttempts == old(errorAttempts)
      ensures count == |history| && sum == Sum(Durations(history))
      ensures buckets.counts == if history == [] then map[] else Cumulative(Durations(history))
      ensures forall stage :: IsRow(stageCounts, stageSums, stageBuckets, stage, StageDurations(history, stage))
      ensures fresh(exported - old(exported)) && exported == old(exported) + {buckets} + stageBuckets.Values
    {
      count, sum := collectionCount, collectionSum;
      buckets := CloneDurationBuckets(collectionBuckets);
      stageCounts, stageSums := stageCollectionCount, stageCollectionSum;
      stageBuckets := CloneStages();
      hide IsRow, StageRow, Separate;
      exported := exported + {buckets} + stageBuckets.Values;
    }

    method CloneStages() returns (clones: map<string, Buckets>)
      ensures clones.Keys == stageCollectionBuckets.Keys && fresh(clones.Values)
      ensures forall stage, durations :: StageRow(stage, durations) ==>
                IsRow(stageCollectionCount, stageCollectionSum, clones, stage, durations)
    {
      hide Sum, Cumulative;
      clones := map[];
      var remaining := stageCollectionBuckets.Keys;
      while remaining != {}
        invariant remaining <= stageCollectionBuckets.Keys
        invariant clones.Keys == stageCollectionBuckets.Keys - remaining
        invariant forall stage | stage in clones ::
                    fresh(clones[stage]) && clones[stage].counts == stageCollectionBuckets[stage].counts
      {
        var stage :| stage in remaining;
        var clone := CloneDurationBuckets(stageCollectionBuckets[stage]);
        clones := clones[stage := clone];
        remaining := remaining - {stage};
      }
    }

    /** Asked about a failed attempt, says whether to log it. */
    method MarkErrorAttemptLogged(attempt: int) returns (log: bool)
      requires Valid()
      modifies `lastLoggedErrAttempt, `hasLoggedError, `errorAttempts
      ensures Valid() && errorAttempts == old(errorAttempts) + [attempt]
      ensures log <==> old(errorAttempts) == [] || old(errorAttempts)[|old(errorAttempts)| - 1] != attempt
    {
      errorAttempts := errorAttempts + [attempt];
      if hasLoggedError && attempt == lastLoggedErrAttempt {
        return false;
      }
      lastLoggedErrAttempt := attempt;
      hasLoggedError := true;
      return true;
    }
  }

  // ----- Which attempts are observed, and how often -----

  predicate Shows(history: seq<Scrape>, time: int) {
    exists i | 0 <= i < |history| :: history[i].attemptTime == time
  }

  lemma ShowsSnoc(history: seq<Scrape>, s: Scrape)
    ensures forall time :: Shows(history + [s], time) <==> Shows(history, time) || s.attemptTime == time
  {
    forall time | Shows(history, time) ensures Shows(history + [s], time) {
      var i :| 0 <= i < |history| && history[i].attemptTime == time;
      assert (history + [s])[i].attemptTime == time;
    }
    assert (history + [s])[|history|] == s;
  }

  lemma LastIsShown(history: seq<Scrape>)
    ensures LastTime(history) != 0 ==> Shows(history, LastTime(history))
  {
    assert history != [] ==> history[|history| - 1].attemptTime == LastTime(history);
  }

  lemma KeptSnoc(scrapes: seq<Scrape>, s: Scrape)
    ensures Kept(scrapes + [s]) == Keep(Kept(scrapes), s)
  {
    assert (scrapes + [s])[..|scrapes|] == scrapes;
  }

  /** No attempt that a scrape shows is missed, and nothing else is counted, whatever the order. */
  lemma {:induction false} EveryAttemptIsObserved(scrapes: seq<Scrape>)
    ensures forall time :: Shows(Kept(scrapes), time) <==> time != 0 && Shows(scrapes, time)
  {
    if scrapes != [] {
      var init, s := scrapes[..|scrapes| - 1], scrapes[|scrapes| - 1];
      assert scrapes == init + [s];
      EveryAttemptIsObserved(init);
      KeptSnoc(init, s);
      LastIsShown(Kept(init));
      ShowsSnoc(init, s);
      ShowsSnoc(Kept(init), s);
      hide Shows, Kept, LastTime;
    }
  }

  /** No attempt is counted twice. */
  predicate Distinct(history: seq<Scrape>) {
    forall i, j | 0 <= i < j < |history| :: history[i].attemptTime != history[j].attemptTime
  }

  /** Between two scrapes of one attempt no scrape shows another attempt. */
  predicate Contiguous(scrapes: seq<Scrape>) {
    forall i, j, k | 0 <= i < j < k < |scrapes| && scrapes[i].attemptTime == scrapes[k].attemptTime ::
      scrapes[i].attemptTime != 0 ==> scrapes[j].attemptTime == scrapes[i].attemptTime || scrapes[j].attemptTime == 0
  }

  /** The attempt has been shown, and another one after it. */
  predicate Followed(scrapes: seq<Scrape>, time: int) {
    exists i, j | 0 <= i < j < |scrapes| ::
      scrapes[i].attemptTime == time && scrapes[j].attemptTime != time && scrapes[j].attemptTime != 0
  }

  lemma FollowedSnoc(scrapes: seq<Scrape>, s: Scrape, time: int)
    ensures Followed(scrapes + [s], time) <==>
              Followed(scrapes, time) || (Shows(scrapes, time) && s.attemptTime != time && s.attemptTime != 0)
    ensures Followed(scrapes, time) ==> Shows(scrapes, time)
  {
    var all := scrapes + [s];
    assert forall i | 0 <= i < |scrapes| :: all[i] == scrapes[i];
    assert all[|scrapes|] == s;
    if Followed(scrapes, time) {
      var i, j :| 0 <= i < j < |scrapes| && scrapes[i].attemptTime == time
                  && scrapes[j].attemptTime != time && scrapes[j].attemptTime != 0;
      assert all[i].attemptTime == time && all[j] == scrapes[j];
    }
    if Shows(scrapes, time) {
      var i :| 0 <= i < |scrapes| && scrapes[i].attemptTime == time;
      assert all[i].attemptTime == time;
    }
  }

  lemma ContiguousSnoc(scrapes: seq<Scrape>, s: Scrape)
    ensures Contiguous(scrapes + [s]) <==>
              Contiguous(scrapes) && (s.attemptTime != 0 ==> !Followed(scrapes, s.attemptTime))
  {
    var all := scrapes + [s];
    assert forall i | 0 <= i < |scrapes| :: all[i] == scrapes[i];
    assert all[|scrapes|] == s;
    if s.attemptTime != 0 && Followed(scrapes, s.attemptTime) {
      var i, j :| 0 <= i < j < |scrapes| && scrapes[i].attemptTime == s.attemptTime
                  && scrapes[j].attemptTime != s.attemptTime && scrapes[j].attemptTime != 0;
      assert all[i].attemptTime == all[|scrapes|].attemptTime && all[j] == scrapes[j];
    }
  }

  lemma DistinctSnoc(history: seq<Scrape>, s: Scrape)
    ensures Distinct(history + [s]) <==> Distinct(history) && !Shows(history, s.attemptTime)
  {
    var all := history + [s];
    assert forall i | 0 <= i < |history| :: all[i] == history[i];
    assert all[|history|] == s;
  }

  /** An attempt that has been shown is the one counted last, or another one has followed it. */
  lemma {:induction false} ShownIsLastOrFollowed(scrapes: seq<Scrape>, time: int)
    requires time != 0 && Shows(scrapes, time)
    ensures LastTime(Kept(scrapes)) == time || Followed(scrapes, time)
  {
    var init, s := scrapes[..|scrapes| - 1], scrapes[|scrapes| - 1];
    assert scrapes == init + [s];
    KeptSnoc(init, s);
    ShowsSnoc(init, s);
    FollowedSnoc(init, s, time);
    hide Shows, Followed, Kept;
    if s.attemptTime == 0 {
      ShownIsLastOrFollowed(init, time);
    }
  }

  /** In a contiguous sequence no attempt has followed the one counted last. */
  lemma {:induction false} LastIsNotFollowed(scrapes: seq<Scrape>)
    requires Contiguous(scrapes) && LastTime(Kept(scrapes)) != 0
    ensures !Followed(scrapes, LastTime(Kept(scrapes)))
  {
    var init, s := scrapes[..|scrapes| - 1], scrapes[|scrapes| - 1];
    assert scrapes == init + [s];
    KeptSnoc(init, s);
    ContiguousSnoc(init, s);
    FollowedSnoc(init, s, LastTime(Kept(scrapes)));
    hide Shows, Followed, Kept, Contiguous;
    if s.attemptTime == 0 {
      LastIsNotFollowed(init);
    }
  }

  /** However often and in whatever order the attempts are scraped: each is counted once if and only
      if no scrape of another attempt comes between two scrapes of the same one. */
  lemma {:induction false} EachAttemptOnceExactly(scrapes: seq<Scrape>)
    ensures Distinct(Kept(scrapes)) <==> Contiguous(scrapes)
  {
    if scrapes != [] {
      var init, s := scrapes[..|scrapes| - 1], scrapes[|scrapes| - 1];
      var kept, time := Kept(init), s.attemptTime;
      assert scrapes == init + [s];
      EachAttemptOnceExactly(init);
      KeptSnoc(init, s);
      ContiguousSnoc(init, s);
      DistinctSnoc(kept, s);
      hide Shows, Followed, Kept, Contiguous, Distinct;
      if time != 0 && time == LastTime(kept) && Contiguous(init) {
        LastIsNotFollowed(init);
      } else if time != 0 && time != LastTime(kept) {
        EveryAttemptIsObserved(init);
        FollowedSnoc(init, s, time);
        if Shows(init, time) {
          ShownIsLastOrFollowed(init, time);
        }
      }
    }
  }

  /** The failing family: an attempt scraped again after another one is counted again. */
  lemma ReturningAttemptIsCountedTwice(a: Scrape, b: Scrape)
    requires a.attemptTime != 0 && b.attemptTime != 0 && a.attemptTime != b.attemptTime
    ensures Kept([a, b, a]) == [a, b, a] && !Distinct(Kept([a, b, a]))
  {
    KeptSnoc([], a);
    KeptSnoc([a], b);
    KeptSnoc([a, b], a);
    assert Kept([]) == [] && [] + [a] == [a] && [a] + [b] == [a, b] && [a, b] + [a] == [a, b, a];
    assert [a, b, a][0].attemptTime == [a, b, a][2].attemptTime;
  }

  // ----- Attempt times that never go back -----

  predicate Forward(scrapes: seq<Scrape>) {
    && (forall i | 0 <= i < |scrapes| :: scrapes[i].attemptTime >= 0)
    && forall i, j | 0 <= i < j < |scrapes| :: scrapes[i].attemptTime <= scrapes[j].attemptTime
  }

  predicate Increasing(history: seq<Scrape>) {
    forall i, j | 0 <= i < j < |history| :: history[i].attemptTime < history[j].attemptTime
  }

  lemma ForwardIsContiguous(scrapes: seq<Scrape>)
    requires Forward(scrapes)
    ensures Contiguous(scrapes)
  {
    forall i, j, k | 0 <= i < j < k < |scrapes| && scrapes[i].attemptTime == scrapes[k].attemptTime
      ensures scrapes[j].attemptTime == scrapes[i].attemptTime
    {
      assert scrapes[i].attemptTime <= scrapes[j].attemptTime <= scrapes[k].attemptTime;
    }
  }

  lemma ForwardInit(scrapes: seq<Scrape>, s: Scrape)
    requires Forward(scrapes + [s])
    ensures Forward(scrapes) && 0 <= LastTime(scrapes) <= s.attemptTime
  {
    var all := scrapes + [s];
    assert forall i | 0 <= i < |scrapes| :: all[i] == scrapes[i];
    assert all[|scrapes|] == s;
  }

  /** The attempt counted last is then the one scraped last, and every count is of a later attempt. */
  lemma {:induction false} ForwardIsIncreasing(scrapes: seq<Scrape>)
    requires Forward(scrapes)
    ensures Increasing(Kept(scrapes)) && LastTime(Kept(scrapes)) == LastTime(scrapes)
  {
    if scrapes != [] {
      var init, s := scrapes[..|scrapes| - 1], scrapes[|scrapes| - 1];
      assert scrapes == init + [s];
      ForwardInit(init, s);
      hide Forward;
      ForwardIsIncreasing(init);
      KeptSnoc(init, s);
      hide Kept, Increasing;
      IncreasingSnoc(Kept(init), s);
    }
  }

  lemma IncreasingSnoc(history: seq<Scrape>, s: Scrape)
    requires Increasing(history)
    ensures LastTime(history) < s.attemptTime ==> Increasing(history + [s])
  {
    var all := history + [s];
    assert forall i | 0 <= i < |history| :: all[i] == history[i];
  }

  /** Then each attempt is counted once, in the order of the attempts, and none is missed. */
  lemma EachAttemptOnce(scrapes: seq<Scrape>)
    requires Forward(scrapes)
    ensures Contiguous(scrapes) && Distinct(Kept(scrapes)) && Increasing(Kept(scrapes))
    ensures forall time :: Shows(Kept(scrapes), time) <==> time != 0 && Shows(scrapes, time)
  {
    ForwardIsContiguous(scrapes);
    ForwardIsIncreasing(scrapes);
    EachAttemptOnceExactly(scrapes);
    EveryAttemptIsObserved(scrapes);
  }
}
