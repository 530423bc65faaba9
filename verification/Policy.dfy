/** Apt-like candidate selection and the update counts built on it. */
module Policy {
  import opened Orders
  import opened Packages
  import opened Versions

  /** A three-way version comparison; the program's own is `VersionOrder(u)`. */
  type VersionComparison = (string, string) -> int

  predicate Newer(vo: VersionComparison, a: string, b: string) {
    vo(a, b) > 0
  }

  /** Higher priority first, then higher version. */
  function CandidateOrder(vo: VersionComparison): (AvailablePackage, AvailablePackage) -> int {
    (a: AvailablePackage, b: AvailablePackage) => CompareCandidates(vo, a, b)
  }

  function CompareCandidates(vo: VersionComparison, a: AvailablePackage, b: AvailablePackage): int {
    Then(Sign(a.priority - b.priority), vo(a.version, b.version))
  }

  lemma CandidateOrderIsTotal(vo: VersionComparison)
    requires TotalPreorder(vo)
    ensures TotalPreorder(CandidateOrder(vo))
  {
    var cmp := CandidateOrder(vo);
    forall x, y ensures -1 <= cmp(x, y) <= 1 && cmp(x, y) == -cmp(y, x) {
      assert vo(x.version, y.version) == -vo(y.version, x.version);
    }
    forall x, y, z | cmp(x, y) <= 0 && cmp(y, z) <= 0 ensures cmp(x, z) <= 0 {
      assert CompareCandidates(vo, x, y) <= 0 && CompareCandidates(vo, y, z) <= 0;
      assert x.priority <= y.priority <= z.priority;
      if x.priority == z.priority {
        assert vo(x.version, y.version) <= 0 && vo(y.version, z.version) <= 0;
      }
      assert cmp(x, z) == CompareCandidates(vo, x, z);
    }
  }

  predicate IsBetter(vo: VersionComparison, a: AvailablePackage, b: AvailablePackage) {
    if a.priority != b.priority then a.priority > b.priority else Newer(vo, a.version, b.version)
  }

  predicate IsSame(vo: VersionComparison, a: AvailablePackage, b: AvailablePackage) {
    a.priority == b.priority && vo(a.version, b.version) == 0
  }

  function Baseline(pkg: InstalledPackage): AvailablePackage {
    AvailablePackage(pkg.name, pkg.architecture, pkg.version, false, INSTALLED_PRIORITY, false)
  }

  function Normalized(c: AvailablePackage): AvailablePackage {
    c.(priority := NormalizedPriority(c.priority))
  }

  /** A downgrade takes part only at forced-downgrade priority. */
  predicate Eligible(vo: VersionComparison, pkg: InstalledPackage, c: AvailablePackage) {
    !(vo(c.version, pkg.version) < 0 && NormalizedPriority(c.priority) < FORCE_DOWNGRADE_PRIORITY)
  }

  predicate Promotes(vo: VersionComparison, pkg: InstalledPackage, best: AvailablePackage, c: AvailablePackage) {
    Eligible(vo, pkg, c) && IsBetter(vo, Normalized(c), best)
  }

  function Consider(vo: VersionComparison, pkg: InstalledPackage, best: AvailablePackage, c: AvailablePackage): AvailablePackage {
    if !Eligible(vo, pkg, c) then best
    else if IsBetter(vo, Normalized(c), best) then Normalized(c)
    else if IsSame(vo, Normalized(c), best) && c.security then best.(security := true)
    else best
  }

  /** The candidate apt's policy would select. */
  function Selected(vo: VersionComparison, pkg: InstalledPackage, cands: seq<AvailablePackage>): AvailablePackage {
    if cands == [] then Baseline(pkg)
    else Consider(vo, pkg, Selected(vo, pkg, cands[..|cands| - 1]), cands[|cands| - 1])
  }

  lemma SelectedFirst(vo: VersionComparison, pkg: InstalledPackage)
    ensures Selected(vo, pkg, []) == Baseline(pkg)
  {
  }

  lemma SelectedNext(vo: VersionComparison, pkg: InstalledPackage, cands: seq<AvailablePackage>, i: nat)
    requires i < |cands|
    ensures Selected(vo, pkg, cands[..i + 1]) == Consider(vo, pkg, Selected(vo, pkg, cands[..i]), cands[i])
  {
    assert cands[..i + 1][..i] == cands[..i];
  }

  method BestPolicyCandidate(u: Unicode, pkg: InstalledPackage, available: seq<AvailablePackage>)
    returns (best: AvailablePackage)
    ensures best == Selected(VersionOrder(u), pkg, available)
  {
    hide VersionOrder, Selected, IsBetter, IsSame;
    best := AvailablePackage(pkg.name, pkg.architecture, pkg.version, false, INSTALLED_PRIORITY, false);
    SelectedFirst(VersionOrder(u), pkg);
    for i := 0 to |available|
      invariant best == Selected(VersionOrder(u), pkg, available[..i])
    {
      SelectedNext(VersionOrder(u), pkg, available, i);
      var candidate := available[i];
      candidate := candidate.(priority := NormalizedPriority(candidate.priority));
      var downgrade := CompareVersions(u, candidate.version, pkg.version);
      if downgrade < 0 && candidate.priority < FORCE_DOWNGRADE_PRIORITY {
        continue;
      }
      if IsBetter(VersionOrder(u), candidate, best) {
        best := candidate;
        continue;
      }
      if IsSame(VersionOrder(u), candidate, best) && candidate.security {
        best := best.(security := true);
      }
    }
    assert available[..|available|] == available;
  }

  // ----- Selection picks the first maximum -----

  /** Position of the winner: -1 for the installed version, else an index into `cands`. */
  ghost function Winner(vo: VersionComparison, pkg: InstalledPackage, cands: seq<AvailablePackage>): (w: int)
    ensures -1 <= w < |cands|
  {
    if cands == [] then -1
    else
      var init, c := cands[..|cands| - 1], cands[|cands| - 1];
      if Promotes(vo, pkg, Selected(vo, pkg, init), c) then |cands| - 1
      else Winner(vo, pkg, init)
  }

  /** Contender number `k`; the installed version stands at -1. */
  ghost function Contender(pkg: InstalledPackage, cands: seq<AvailablePackage>, k: int): AvailablePackage
    requires -1 <= k < |cands|
  {
    if k == -1 then Baseline(pkg) else Normalized(cands[k])
  }

  ghost predicate Competes(vo: VersionComparison, pkg: InstalledPackage, cands: seq<AvailablePackage>, k: int)
    requires -1 <= k < |cands|
  {
    k >= 0 ==> Eligible(vo, pkg, cands[k])
  }

  /** Contender `w` leads: nobody beats `s`, and everybody before `w` is strictly below it. */
  ghost predicate Leads(vo: VersionComparison, pkg: InstalledPackage, cands: seq<AvailablePackage>,
                        w: int, s: AvailablePackage)
  {
    && -1 <= w < |cands|
    && Competes(vo, pkg, cands, w)
    && s == Contender(pkg, cands, w).(security := s.security)
    && (forall k | -1 <= k < |cands| && Competes(vo, pkg, cands, k) ::
          CompareCandidates(vo, Contender(pkg, cands, k), s) <= 0)
    && (forall k | -1 <= k < w && Competes(vo, pkg, cands, k) ::
          CompareCandidates(vo, Contender(pkg, cands, k), s) < 0)
  }

  /** The selected candidate is the first contender no other contender beats. */
  lemma {:induction false} SelectedIsFirstMaximum(vo: VersionComparison, pkg: InstalledPackage, cands: seq<AvailablePackage>)
    requires TotalPreorder(vo)
    ensures Leads(vo, pkg, cands, Winner(vo, pkg, cands), Selected(vo, pkg, cands))
  {
    CandidateOrderIsTotal(vo);
    if cands == [] {
      assert vo(pkg.version, pkg.version) == -vo(pkg.version, pkg.version);
    } else {
      var init, c := cands[..|cands| - 1], cands[|cands| - 1];
      SelectedIsFirstMaximum(vo, pkg, init);
      ConsiderKeepsLead(vo, pkg, Selected(vo, pkg, init), c);
      assert cands == init + [c];
      LeadsExtends(vo, pkg, init, c, Winner(vo, pkg, init), Selected(vo, pkg, init));
    }
  }

  lemma LeadsExtends(vo: VersionComparison, pkg: InstalledPackage, init: seq<AvailablePackage>, c: AvailablePackage,
                     w: int, best: AvailablePackage)
    requires TotalPreorder(vo) && Leads(vo, pkg, init, w, best)
    ensures Leads(vo, pkg, init + [c], if Promotes(vo, pkg, best, c) then |init| else w, Consider(vo, pkg, best, c))
  {
    CandidateOrderIsTotal(vo);
    var cands, s := init + [c], Consider(vo, pkg, best, c);
    ConsiderKeepsLead(vo, pkg, best, c);
    forall k | -1 <= k < |init| && Competes(vo, pkg, cands, k)
      ensures CompareCandidates(vo, Contender(pkg, cands, k), s) <= 0
      ensures Promotes(vo, pkg, best, c) || k < w ==> CompareCandidates(vo, Contender(pkg, cands, k), s) < 0
    {
      var x := Contender(pkg, init, k);
      assert x == Contender(pkg, cands, k) && Competes(vo, pkg, init, k);
      ChainCandidates(vo, x, best, s);
    }
  }

  lemma ChainCandidates(vo: VersionComparison, x: AvailablePackage, y: AvailablePackage, z: AvailablePackage)
    requires TotalPreorder(vo)
    ensures CompareCandidates(vo, x, y) <= 0 && CompareCandidates(vo, y, z) <= 0 ==> CompareCandidates(vo, x, z) <= 0
    ensures CompareCandidates(vo, x, y) <= 0 && CompareCandidates(vo, y, z) < 0 ==> CompareCandidates(vo, x, z) < 0
    ensures CompareCandidates(vo, x, y) < 0 && CompareCandidates(vo, y, z) <= 0 ==> CompareCandidates(vo, x, z) < 0
    ensures CompareCandidates(vo, x, y) == -CompareCandidates(vo, y, x)
  {
    CandidateOrderIsTotal(vo);
    Chain(CandidateOrder(vo), x, y, z);
    assert CandidateOrder(vo)(x, y) == CompareCandidates(vo, x, y) == -CandidateOrder(vo)(y, x);
    assert CandidateOrder(vo)(y, z) == CompareCandidates(vo, y, z);
    assert CandidateOrder(vo)(x, z) == CompareCandidates(vo, x, z);
  }

  /** One step of the fold: the leader only moves up, and it ends at least as high as the newcomer. */
  lemma ConsiderKeepsLead(vo: VersionComparison, pkg: InstalledPackage, best: AvailablePackage, c: AvailablePackage)
    requires TotalPreorder(vo)
    ensures var s := Consider(vo, pkg, best, c);
            && CompareCandidates(vo, best, s) <= 0
            && (Eligible(vo, pkg, c) ==> CompareCandidates(vo, Normalized(c), s) <= 0)
            && if Promotes(vo, pkg, best, c) then s == Normalized(c) && CompareCandidates(vo, best, s) < 0
               else s == best.(security := s.security)
  {
    var n := Normalized(c);
    assert vo(n.version, best.version) == -vo(best.version, n.version);
    assert vo(best.version, best.version) == -vo(best.version, best.version);
    assert vo(n.version, n.version) == -vo(n.version, n.version);
  }

  lemma Chain<T(!new)>(cmp: (T, T) -> int, x: T, y: T, z: T)
    requires TotalPreorder(cmp)
    ensures cmp(x, y) <= 0 && cmp(y, z) <= 0 ==> cmp(x, z) <= 0
    ensures cmp(x, y) <= 0 && cmp(y, z) < 0 ==> cmp(x, z) < 0
    ensures cmp(x, y) < 0 && cmp(y, z) <= 0 ==> cmp(x, z) < 0
  {
    assert cmp(x, z) == -cmp(z, x) && cmp(y, z) == -cmp(z, y) && cmp(x, y) == -cmp(y, x);
  }


  /** Some candidate tied with `s` comes from a security archive. */
  ghost predicate SecurityTie(vo: VersionComparison, cands: seq<AvailablePackage>, s: AvailablePackage) {
    exists c :: c in cands && CompareCandidates(vo, Normalized(c), s) == 0 && c.security
  }

  /** A candidate tied with the selected one is never filtered out as a downgrade. */
  lemma TiedIsEligible(vo: VersionComparison, pkg: InstalledPackage, cands: seq<AvailablePackage>, c: AvailablePackage)
    requires TotalPreorder(vo)
    requires CompareCandidates(vo, Normalized(c), Selected(vo, pkg, cands)) == 0
    ensures Eligible(vo, pkg, c)
  {
    SelectedIsFirstMaximum(vo, pkg, cands);
    var w := Winner(vo, pkg, cands);
    TiesAreInterchangeable(vo, c.version, Contender(pkg, cands, w).version, pkg.version);
    assert vo(pkg.version, pkg.version) == -vo(pkg.version, pkg.version);
  }

  /** The selected candidate is a security update exactly when some tied candidate is. */
  lemma {:induction false} SelectedSecurity(vo: VersionComparison, pkg: InstalledPackage, cands: seq<AvailablePackage>)
    requires TotalPreorder(vo)
    ensures Selected(vo, pkg, cands).security <==> SecurityTie(vo, cands, Selected(vo, pkg, cands))
  {
    if cands != [] {
      var init, c := cands[..|cands| - 1], cands[|cands| - 1];
      SelectedSecurity(vo, pkg, init);
      var s0, s := Selected(vo, pkg, init), Selected(vo, pkg, cands);
      assert forall x :: x in cands <==> x in init || x == c;
      ConsiderKeepsLead(vo, pkg, s0, c);
      if Promotes(vo, pkg, s0, c) {
        ChainCandidates(vo, s, s, s);
        PromotedIsAlone(vo, pkg, cands);
        hide SecurityTie, Promotes, CompareCandidates, Selected;
        SecurityTieSnoc(vo, init, c, s);
        assert cands == init + [c];
      } else {
        if CompareCandidates(vo, Normalized(c), s) == 0 {
          TiedIsEligible(vo, pkg, cands, c);
        }
        FlagKeepsTies(vo, init, s0, s);
        SecurityTieSnoc(vo, init, c, s);
        assert cands == init + [c];
        assert IsSame(vo, Normalized(c), s0) <==> CompareCandidates(vo, Normalized(c), s) == 0;
        hide SecurityTie;
      }
    }
  }

  /** A candidate that replaces the leader ties with none of its predecessors. */
  lemma PromotedIsAlone(vo: VersionComparison, pkg: InstalledPackage, cands: seq<AvailablePackage>)
    requires TotalPreorder(vo) && cands != []
    requires Promotes(vo, pkg, Selected(vo, pkg, cands[..|cands| - 1]), cands[|cands| - 1])
    ensures !SecurityTie(vo, cands[..|cands| - 1], Selected(vo, pkg, cands))
  {
    var init, c := cands[..|cands| - 1], cands[|cands| - 1];
    var s0, s := Selected(vo, pkg, init), Selected(vo, pkg, cands);
    ConsiderKeepsLead(vo, pkg, s0, c);
    hide Promotes;
    forall x | x in init ensures CompareCandidates(vo, Normalized(x), s) != 0 {
      if CompareCandidates(vo, Normalized(x), s) == 0 {
        TiedIsEligible(vo, pkg, cands, x);
        MembersDoNotBeat(vo, pkg, init, x);
        ChainCandidates(vo, Normalized(x), s0, s);
      }
    }
  }

  /** Ties do not depend on the flag. */
  lemma FlagKeepsTies(vo: VersionComparison, cands: seq<AvailablePackage>, a: AvailablePackage, b: AvailablePackage)
    requires b == a.(security := b.security)
    ensures SecurityTie(vo, cands, a) == SecurityTie(vo, cands, b)
  {
    assert forall x :: CompareCandidates(vo, x, a) == CompareCandidates(vo, x, b);
  }

  lemma SecurityTieSnoc(vo: VersionComparison, init: seq<AvailablePackage>, c: AvailablePackage, s: AvailablePackage)
    ensures SecurityTie(vo, init + [c], s)
       <==> SecurityTie(vo, init, s) || (CompareCandidates(vo, Normalized(c), s) == 0 && c.security)
  {
    assert forall x :: x in init + [c] <==> x in init || x == c;
  }

  /** No eligible candidate beats the selected one. */
  lemma MembersDoNotBeat(vo: VersionComparison, pkg: InstalledPackage, cands: seq<AvailablePackage>, c: AvailablePackage)
    requires TotalPreorder(vo)
    requires c in cands && Eligible(vo, pkg, c)
    ensures CompareCandidates(vo, Normalized(c), Selected(vo, pkg, cands)) <= 0
  {
    SelectedIsFirstMaximum(vo, pkg, cands);
    var k :| 0 <= k < |cands| && cands[k] == c;
    assert Contender(pkg, cands, k) == Normalized(c) && Competes(vo, pkg, cands, k);
  }

  // ----- Selection depends only on which candidates there are -----

  ghost predicate SameMembers<T(!new)>(a: seq<T>, b: seq<T>) {
    forall x :: x in a <==> x in b
  }

  lemma SelectedAtMost(vo: VersionComparison, pkg: InstalledPackage, a: seq<AvailablePackage>, b: seq<AvailablePackage>)
    requires TotalPreorder(vo) && SameMembers(a, b)
    ensures CompareCandidates(vo, Selected(vo, pkg, a), Selected(vo, pkg, b)) <= 0
  {
    SelectedIsFirstMaximum(vo, pkg, a);
    SelectedIsFirstMaximum(vo, pkg, b);
    var w := Winner(vo, pkg, a);
    if w == -1 {
      assert Competes(vo, pkg, b, -1);
      assert CompareCandidates(vo, Contender(pkg, b, -1), Selected(vo, pkg, b)) <= 0;
    } else {
      assert a[w] in b;
      MembersDoNotBeat(vo, pkg, b, a[w]);
    }
  }

  /** Reordering or repeating candidates changes neither the selected priority, nor the version up
      to ties, nor the security flag. */
  lemma SelectionIgnoresOrder(vo: VersionComparison, pkg: InstalledPackage, a: seq<AvailablePackage>, b: seq<AvailablePackage>)
    requires TotalPreorder(vo) && SameMembers(a, b)
    ensures var s, t := Selected(vo, pkg, a), Selected(vo, pkg, b);
            s.priority == t.priority && vo(s.version, t.version) == 0 && s.security == t.security
  {
    var s, t := Selected(vo, pkg, a), Selected(vo, pkg, b);
    SelectedAtMost(vo, pkg, a, b);
    SelectedAtMost(vo, pkg, b, a);
    ChainCandidates(vo, s, t, s);
    assert CompareCandidates(vo, s, t) == 0;
    SelectedSecurity(vo, pkg, a);
    SelectedSecurity(vo, pkg, b);
    forall c ensures CompareCandidates(vo, Normalized(c), s) == CompareCandidates(vo, Normalized(c), t) {
      TiesAreInterchangeable(vo, s.version, t.version, c.version);
    }
  }
}
