/** What each of the five metrics counts, in the terms of its documentation and without the selection
    algorithm. */
module UpdateMeanings {
  import opened Orders
  import opened Packages
  import opened Policy
  import opened Counting
  import opened CountingLaws

  // ----- The terms -----

  /** dpkg wants the package installed, and it is; a held package is kept at its version. */
  predicate IsPresent(pkg: InstalledPackage) {
    |pkg.status| == 3 && pkg.status[0] in ["install", "hold"] && pkg.status[2] == "installed"
  }

  predicate IsKept(pkg: InstalledPackage) {
    IsPresent(pkg) && pkg.status[0] == "hold"
  }

  /** An index offers `c` for the package: under its own architecture or, if there is no such offer,
      under "all". */
  predicate Offered(pkg: InstalledPackage, available: seq<AvailablePackage>, c: AvailablePackage) {
    && c in available && c.name == pkg.name
    && (c.architecture == pkg.architecture
        || (c.architecture == "all"
            && !exists d | d in available :: d.name == pkg.name && d.architecture == pkg.architecture))
  }

  /** A missing priority is 500. */
  function Rank(c: AvailablePackage): int {
    if c.priority == 0 then 500 else c.priority
  }

  /** Priorities decide before versions. */
  predicate Outranks(vo: VersionComparison, p: int, v: string, q: int, w: string) {
    p > q || (p == q && vo(v, w) > 0)
  }

  /** Offers below the installed version are considered only at priority 1000 or more. */
  predicate Considered(vo: VersionComparison, pkg: InstalledPackage, available: seq<AvailablePackage>, c: AvailablePackage) {
    Offered(pkg, available, c) && (vo(c.version, pkg.version) < 0 ==> Rank(c) >= 1000)
  }

  /** No considered offer and not the installed version, at priority 100, outranks this. */
  predicate Unbeaten(vo: VersionComparison, pkg: InstalledPackage, available: seq<AvailablePackage>, p: int, v: string) {
    && !Outranks(vo, 100, pkg.version, p, v)
    && forall d | d in available && Considered(vo, pkg, available, d) :: !Outranks(vo, Rank(d), d.version, p, v)
  }

  /** The policy may select `c`. */
  predicate IsChoice(vo: VersionComparison, pkg: InstalledPackage, available: seq<AvailablePackage>, c: AvailablePackage) {
    Considered(vo, pkg, available, c) && Unbeaten(vo, pkg, available, Rank(c), c.version)
  }

  /** A security archive offers the same version at the same priority. */
  predicate IsSecured(vo: VersionComparison, pkg: InstalledPackage, available: seq<AvailablePackage>, c: AvailablePackage) {
    exists d | d in available ::
      Offered(pkg, available, d) && Rank(d) == Rank(c) && vo(d.version, c.version) == 0 && d.security
  }

  // ----- The metrics -----

  predicate CountsAsUpgradable(vo: VersionComparison, pkg: InstalledPackage, available: seq<AvailablePackage>, securityOnly: bool) {
    && IsPresent(pkg) && !IsKept(pkg) && pkg.version != ""
    && exists c | c in available ::
         && IsChoice(vo, pkg, available, c) && vo(c.version, pkg.version) > 0
         && (securityOnly ==> IsSecured(vo, pkg, available, c))
  }

  /** The offer exceeds what is selected, or the installed version if the package is kept at it. */
  predicate IsHeldBack(vo: VersionComparison, pkg: InstalledPackage, available: seq<AvailablePackage>, c: AvailablePackage) {
    if IsKept(pkg) || Unbeaten(vo, pkg, available, 100, pkg.version) then vo(c.version, pkg.version) > 0
    else exists s | s in available :: IsChoice(vo, pkg, available, s) && vo(c.version, s.version) > 0
  }

  predicate CountsAsPinned(vo: VersionComparison, pkg: InstalledPackage, available: seq<AvailablePackage>, securityOnly: bool) {
    && IsPresent(pkg) && pkg.version != ""
    && exists c | c in available ::
         && Offered(pkg, available, c) && !c.backports && (securityOnly ==> c.security)
         && IsHeldBack(vo, pkg, available, c)
  }

  predicate CountsAsBackports(vo: VersionComparison, pkg: InstalledPackage, available: seq<AvailablePackage>) {
    && IsPresent(pkg) && pkg.version != ""
    && exists c | c in available :: Offered(pkg, available, c) && c.backports && vo(c.version, pkg.version) > 0
  }

  // ----- The selected candidate in these terms -----

  lemma OffersAreCandidates(pkg: InstalledPackage, available: seq<AvailablePackage>)
    ensures forall c :: Offered(pkg, available, c) <==> c in Candidates(pkg, available)
  {
    forall c ensures Offered(pkg, available, c) <==> c in Candidates(pkg, available) {
      CandidatesAre(pkg, available, c);
    }
  }

  lemma OutranksIsOrder(vo: VersionComparison, a: AvailablePackage, b: AvailablePackage)
    ensures CompareCandidates(vo, a, b) > 0 <==> Outranks(vo, a.priority, a.version, b.priority, b.version)
    ensures CompareCandidates(vo, a, b) == 0 <==> a.priority == b.priority && vo(a.version, b.version) == 0
  {
  }

  /** The selected version is the installed one, at priority 100, or that of a considered offer; and
      it is unbeaten. */
  lemma SelectedIsChoice(vo: VersionComparison, pkg: InstalledPackage, available: seq<AvailablePackage>)
    requires TotalPreorder(vo)
    ensures var s := Selected(vo, pkg, Candidates(pkg, available));
            && Unbeaten(vo, pkg, available, s.priority, s.version)
            && (|| (s.priority == 100 && s.version == pkg.version)
                || exists c | c in available :: IsChoice(vo, pkg, available, c) && Rank(c) == s.priority && c.version == s.version)
  {
    var cands := Candidates(pkg, available);
    var s := Selected(vo, pkg, cands);
    OffersAreCandidates(pkg, available);
    SelectedIsFirstMaximum(vo, pkg, cands);
    CandidateOrderIsTotal(vo);
    var w := Winner(vo, pkg, cands);
    hide Selected, Winner, Candidates, Offered, Unbeaten;
    assert CompareCandidates(vo, Baseline(pkg), s) <= 0 by { assert Contender(pkg, cands, -1) == Baseline(pkg); }
    OutranksIsOrder(vo, Baseline(pkg), s);
    forall d | d in available && Considered(vo, pkg, available, d)
      ensures !Outranks(vo, Rank(d), d.version, s.priority, s.version)
    {
      MembersDoNotBeat(vo, pkg, cands, d);
      OutranksIsOrder(vo, Normalized(d), s);
    }
    UnbeatenWhen(vo, pkg, available, s.priority, s.version);
    if w >= 0 {
      var c := cands[w];
      assert c in cands && Offered(pkg, available, c);
      OfferedIsAvailable(pkg, available, c);
      assert IsChoice(vo, pkg, available, c) && Rank(c) == s.priority && c.version == s.version;
    }
  }

  lemma OfferedIsAvailable(pkg: InstalledPackage, available: seq<AvailablePackage>, c: AvailablePackage)
    requires Offered(pkg, available, c)
    ensures c in available
  {
  }

  lemma UnbeatenWhen(vo: VersionComparison, pkg: InstalledPackage, available: seq<AvailablePackage>, p: int, v: string)
    requires !Outranks(vo, 100, pkg.version, p, v)
    requires forall d | d in available && Considered(vo, pkg, available, d) :: !Outranks(vo, Rank(d), d.version, p, v)
    ensures Unbeaten(vo, pkg, available, p, v)
  {
  }

  /** Every choice ties with the selected candidate. */
  lemma ChoicesTie(vo: VersionComparison, pkg: InstalledPackage, available: seq<AvailablePackage>, c: AvailablePackage)
    requires TotalPreorder(vo) && IsChoice(vo, pkg, available, c)
    ensures var s := Selected(vo, pkg, Candidates(pkg, available));
            Rank(c) == s.priority && vo(c.version, s.version) == 0
  {
    SelectedIsChoice(vo, pkg, available);
    hide Selected, Candidates, Offered;
    var s := Selected(vo, pkg, Candidates(pkg, available));
    assert vo(c.version, s.version) == -vo(s.version, c.version);
  }

  /** Likewise the installed version, when nothing outranks it. */
  lemma UnbeatenBaselineTies(vo: VersionComparison, pkg: InstalledPackage, available: seq<AvailablePackage>)
    requires TotalPreorder(vo) && Unbeaten(vo, pkg, available, 100, pkg.version)
    ensures var s := Selected(vo, pkg, Candidates(pkg, available));
            s.priority == 100 && vo(s.version, pkg.version) == 0
  {
    SelectedIsChoice(vo, pkg, available);
    hide Selected, Candidates, Offered;
    var s := Selected(vo, pkg, Candidates(pkg, available));
    assert vo(s.version, pkg.version) == -vo(pkg.version, s.version);
    assert vo(pkg.version, pkg.version) == -vo(pkg.version, pkg.version);
  }

  // ----- The metrics in these terms -----

  lemma StatusMeans(pkg: InstalledPackage)
    ensures IsInstalled(pkg.status) <==> IsPresent(pkg)
    ensures IsHeld(pkg.status) <==> IsKept(pkg)
  {
  }

  lemma UpgradableMeans(vo: VersionComparison, pkg: InstalledPackage, available: seq<AvailablePackage>, securityOnly: bool)
    requires TotalPreorder(vo)
    ensures Upgradable(vo, available, securityOnly)(pkg) <==> CountsAsUpgradable(vo, pkg, available, securityOnly)
  {
    var cands := Candidates(pkg, available);
    var s := Selected(vo, pkg, cands);
    StatusMeans(pkg);
    SelectedIsChoice(vo, pkg, available);
    SelectedSecurity(vo, pkg, cands);
    OffersAreCandidates(pkg, available);
    assert vo(pkg.version, pkg.version) == -vo(pkg.version, pkg.version);
    hide Selected, Candidates, Offered, IsInstalled, IsHeld, IsPresent, IsKept, Unbeaten, SecurityTie;
    if vo(s.version, pkg.version) > 0 {
      var c :| c in available && IsChoice(vo, pkg, available, c) && Rank(c) == s.priority && c.version == s.version;
      SecuredTie(vo, pkg, available, c, s);
    }
    forall c | c in available && IsChoice(vo, pkg, available, c)
      ensures vo(c.version, pkg.version) == vo(s.version, pkg.version)
      ensures IsSecured(vo, pkg, available, c) <==> SecurityTie(vo, cands, s)
    {
      ChoicesTie(vo, pkg, available, c);
      TiesAreInterchangeable(vo, c.version, s.version, pkg.version);
      SecuredTie(vo, pkg, available, c, s);
    }
    hide IsChoice, IsSecured;
  }

  lemma SecuredTie(vo: VersionComparison, pkg: InstalledPackage, available: seq<AvailablePackage>,
                   c: AvailablePackage, s: AvailablePackage)
    requires TotalPreorder(vo) && Rank(c) == s.priority && vo(c.version, s.version) == 0
    ensures IsSecured(vo, pkg, available, c) <==> SecurityTie(vo, Candidates(pkg, available), s)
  {
    OffersAreCandidates(pkg, available);
    hide Candidates;
    forall d ensures Rank(d) == Rank(c) && vo(d.version, c.version) == 0 <==> CompareCandidates(vo, Normalized(d), s) == 0 {
      TiesAreInterchangeable(vo, c.version, s.version, d.version);
      OutranksIsOrder(vo, Normalized(d), s);
    }
    hide Rank, CompareCandidates, Normalized;
    forall d | Offered(pkg, available, d) ensures d in available {
      OfferedIsAvailable(pkg, available, d);
    }
    hide Offered;
  }

  lemma PinnedMeans(vo: VersionComparison, pkg: InstalledPackage, available: seq<AvailablePackage>, securityOnly: bool)
    requires TotalPreorder(vo)
    ensures Pinned(vo, available, securityOnly)(pkg) <==> CountsAsPinned(vo, pkg, available, securityOnly)
  {
    var cands := Candidates(pkg, available);
    StatusMeans(pkg);
    OffersAreCandidates(pkg, available);
    forall d | Offered(pkg, available, d) ensures d in available {
      OfferedIsAvailable(pkg, available, d);
    }
    hide Selected, Candidates, Offered, IsInstalled, IsHeld, IsPresent, IsHeldBack, PinnedReference;
    if IsPresent(pkg) {
      forall c ensures IsHeldBack(vo, pkg, available, c) <==> vo(c.version, PinnedReference(vo, pkg, cands)) > 0 {
        HeldBackMeans(vo, pkg, available, c);
      }
    }
  }

  lemma HeldBackMeans(vo: VersionComparison, pkg: InstalledPackage, available: seq<AvailablePackage>, c: AvailablePackage)
    requires TotalPreorder(vo) && IsPresent(pkg)
    ensures IsHeldBack(vo, pkg, available, c)
       <==> vo(c.version, PinnedReference(vo, pkg, Candidates(pkg, available))) > 0
  {
    StatusMeans(pkg);
    SelectedIsChoice(vo, pkg, available);
    hide Selected, Candidates, Offered, IsHeld, IsPresent, Unbeaten;
    var s := Selected(vo, pkg, Candidates(pkg, available));
    if !IsKept(pkg) {
      if Unbeaten(vo, pkg, available, 100, pkg.version) {
        UnbeatenBaselineTies(vo, pkg, available);
        TiesAreInterchangeable(vo, s.version, pkg.version, c.version);
      } else {
        forall t | t in available && IsChoice(vo, pkg, available, t) ensures vo(c.version, t.version) == vo(c.version, s.version) {
          ChoicesTie(vo, pkg, available, t);
          TiesAreInterchangeable(vo, t.version, s.version, c.version);
        }
        hide IsChoice;
      }
    }
  }

  lemma BackportsMeans(vo: VersionComparison, pkg: InstalledPackage, available: seq<AvailablePackage>)
    ensures Backports(vo, available)(pkg) <==> CountsAsBackports(vo, pkg, available)
  {
    StatusMeans(pkg);
    OffersAreCandidates(pkg, available);
    forall d | Offered(pkg, available, d) ensures d in available {
      OfferedIsAvailable(pkg, available, d);
    }
    hide Candidates, Offered, IsInstalled, IsPresent;
  }

  /** The five counts are the numbers of packages with these meanings. */
  lemma CountsMean(vo: VersionComparison, installed: seq<InstalledPackage>, available: seq<AvailablePackage>)
    requires TotalPreorder(vo)
    ensures var n := CountUpdates(vo, installed, available);
            && n.upgradable == CountWhere(installed, pkg => CountsAsUpgradable(vo, pkg, available, false))
            && n.securityUpgradable == CountWhere(installed, pkg => CountsAsUpgradable(vo, pkg, available, true))
            && n.pinned == CountWhere(installed, pkg => CountsAsPinned(vo, pkg, available, false))
            && n.securityPinned == CountWhere(installed, pkg => CountsAsPinned(vo, pkg, available, true))
            && n.backports == CountWhere(installed, pkg => CountsAsBackports(vo, pkg, available))
  {
    hide CountWhere, Upgradable, Pinned, Backports, CountsAsUpgradable, CountsAsPinned, CountsAsBackports;
    forall pkg, securityOnly
      ensures Upgradable(vo, available, securityOnly)(pkg) == CountsAsUpgradable(vo, pkg, available, securityOnly)
      ensures Pinned(vo, available, securityOnly)(pkg) == CountsAsPinned(vo, pkg, available, securityOnly)
      ensures Backports(vo, available)(pkg) == CountsAsBackports(vo, pkg, available)
    {
      UpgradableMeans(vo, pkg, available, securityOnly);
      PinnedMeans(vo, pkg, available, securityOnly);
      BackportsMeans(vo, pkg, available);
    }
    CountWhereAgree(installed, Upgradable(vo, available, false), pkg => CountsAsUpgradable(vo, pkg, available, false));
    CountWhereAgree(installed, Upgradable(vo, available, true), pkg => CountsAsUpgradable(vo, pkg, available, true));
    CountWhereAgree(installed, Pinned(vo, available, false), pkg => CountsAsPinned(vo, pkg, available, false));
    CountWhereAgree(installed, Pinned(vo, available, true), pkg => CountsAsPinned(vo, pkg, available, true));
    CountWhereAgree(installed, Backports(vo, available), pkg => CountsAsBackports(vo, pkg, available));
  }
}
