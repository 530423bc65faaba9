/** What the update counts mean. Every law holds for any version comparison that is a total
    preorder, so for the program's own. */
module CountingLaws {
  import opened Orders
  import opened Packages
  import opened Policy
  import opened Counting
  import opened Versions
  import opened VersionLaws

  // ----- Candidates -----

  /** The candidates of a package: those of its own architecture, or those for "all" if it has none. */
  lemma CandidatesAre(pkg: InstalledPackage, available: seq<AvailablePackage>, c: AvailablePackage)
    ensures c in Candidates(pkg, available) <==>
            && c in available && c.name == pkg.name
            && (c.architecture == pkg.architecture
                || (c.architecture == "all"
                    && !exists d :: d in available && d.name == pkg.name && d.architecture == pkg.architecture))
  {
    var own, all := PackageKey(pkg.name, pkg.architecture), PackageKey(pkg.name, "all");
    WithKeyMembers(available, own);
    WithKeyMembers(available, all);
    var found := WithKey(available, own);
    if found != [] { assert found[0] in found; }
    assert found != [] <==> exists d :: d in available && KeyOf(d) == own;
  }

  // ----- Counts depend only on which packages are available -----

  lemma CandidatesIgnoreOrder(pkg: InstalledPackage, a: seq<AvailablePackage>, b: seq<AvailablePackage>)
    requires SameMembers(a, b)
    ensures SameMembers(Candidates(pkg, a), Candidates(pkg, b))
  {
    var own, all := PackageKey(pkg.name, pkg.architecture), PackageKey(pkg.name, "all");
    WithKeyMembers(a, own);
    WithKeyMembers(b, own);
    WithKeyMembers(a, all);
    WithKeyMembers(b, all);
    assert WithKey(a, own) == [] <==> WithKey(b, own) == [] by {
      if WithKey(a, own) != [] { assert WithKey(a, own)[0] in WithKey(b, own); }
      if WithKey(b, own) != [] { assert WithKey(b, own)[0] in WithKey(a, own); }
    }
  }

  ghost predicate SameUpdates(vo: VersionComparison, pkg: InstalledPackage,
                              a: seq<AvailablePackage>, b: seq<AvailablePackage>, securityOnly: bool)
  {
    && HasUpgrade(vo, pkg, a, securityOnly) == HasUpgrade(vo, pkg, b, securityOnly)
    && HasPinned(vo, pkg, a, securityOnly) == HasPinned(vo, pkg, b, securityOnly)
    && HasBackports(vo, pkg, a) == HasBackports(vo, pkg, b)
  }

  lemma UpdatesIgnoreOrder(vo: VersionComparison, pkg: InstalledPackage,
                           a: seq<AvailablePackage>, b: seq<AvailablePackage>, securityOnly: bool)
    requires TotalPreorder(vo) && SameMembers(a, b)
    ensures SameUpdates(vo, pkg, a, b, securityOnly)
  {
    SelectionIgnoresOrder(vo, pkg, a, b);
    var s, t := Selected(vo, pkg, a), Selected(vo, pkg, b);
    TiesAreInterchangeable(vo, s.version, t.version, pkg.version);
    forall c ensures IsPinnedBy(vo, c, s.version, securityOnly) == IsPinnedBy(vo, c, t.version, securityOnly) {
      TiesAreInterchangeable(vo, s.version, t.version, c.version);
    }
  }

  lemma CountsAgree(vo: VersionComparison, installed: seq<InstalledPackage>,
                    a: seq<AvailablePackage>, b: seq<AvailablePackage>, securityOnly: bool)
    requires forall pkg | pkg in installed && IsInstalled(pkg.status) ::
               SameUpdates(vo, pkg, Candidates(pkg, a), Candidates(pkg, b), securityOnly)
    ensures CountWhere(installed, Upgradable(vo, a, securityOnly)) == CountWhere(installed, Upgradable(vo, b, securityOnly))
    ensures CountWhere(installed, Pinned(vo, a, securityOnly)) == CountWhere(installed, Pinned(vo, b, securityOnly))
    ensures CountWhere(installed, Backports(vo, a)) == CountWhere(installed, Backports(vo, b))
  {
    CountWhereAgree(installed, Upgradable(vo, a, securityOnly), Upgradable(vo, b, securityOnly));
    CountWhereAgree(installed, Pinned(vo, a, securityOnly), Pinned(vo, b, securityOnly));
    CountWhereAgree(installed, Backports(vo, a), Backports(vo, b));
  }

  /** Reordering or repeating entries of the package indexes changes none of the five counts. */
  lemma CountsIgnoreOrder(vo: VersionComparison, installed: seq<InstalledPackage>,
                          a: seq<AvailablePackage>, b: seq<AvailablePackage>)
    requires TotalPreorder(vo) && SameMembers(a, b)
    ensures CountUpdates(vo, installed, a) == CountUpdates(vo, installed, b)
  {
    forall pkg: InstalledPackage, securityOnly: bool
      ensures SameUpdates(vo, pkg, Candidates(pkg, a), Candidates(pkg, b), securityOnly)
    {
      CandidatesIgnoreOrder(pkg, a, b);
      UpdatesIgnoreOrder(vo, pkg, Candidates(pkg, a), Candidates(pkg, b), securityOnly);
    }
    CountsAgree(vo, installed, a, b, false);
    CountsAgree(vo, installed, a, b, true);
  }

  lemma PermutationHasSameMembers<T>(a: seq<T>, b: seq<T>)
    requires multiset(a) == multiset(b)
    ensures forall x :: x in a <==> x in b
  {
    forall x ensures x in a <==> x in b {
      assert x in a <==> x in multiset(a);
      assert x in b <==> x in multiset(b);
    }
  }

  /** In particular, any permutation of the package list gives the same five counts. */
  lemma CountsIgnorePermutation(vo: VersionComparison, installed: seq<InstalledPackage>,
                                a: seq<AvailablePackage>, b: seq<AvailablePackage>)
    requires TotalPreorder(vo) && multiset(a) == multiset(b)
    ensures CountUpdates(vo, installed, a) == CountUpdates(vo, installed, b)
  {
    PermutationHasSameMembers(a, b);
    CountsIgnoreOrder(vo, installed, a, b);
  }

  // ----- No newer version is lost -----

  predicate HasNewer(vo: VersionComparison, pkg: InstalledPackage, cands: seq<AvailablePackage>) {
    pkg.version != "" && exists c | c in cands :: Newer(vo, c.version, pkg.version)
  }

  /** A candidate newer than the installed version is counted: as a backport if it is one, as
      pinned if the package is held, else as upgradable or pinned. */
  lemma NewerIsCounted(vo: VersionComparison, pkg: InstalledPackage, cands: seq<AvailablePackage>, c: AvailablePackage)
    requires TotalPreorder(vo)
    requires pkg.version != "" && c in cands && Newer(vo, c.version, pkg.version)
    ensures c.backports ==> HasBackports(vo, pkg, cands)
    ensures !c.backports && IsHeld(pkg.status) ==> HasPinned(vo, pkg, cands, false)
    ensures !c.backports && !IsHeld(pkg.status) ==>
              HasUpgrade(vo, pkg, cands, false) || HasPinned(vo, pkg, cands, false)
  {
    var s := Selected(vo, pkg, cands).version;
    if !Newer(vo, c.version, s) {
      assert vo(s, c.version) >= 0 && vo(c.version, pkg.version) > 0;
      Chain(vo, pkg.version, c.version, s);
      assert vo(pkg.version, s) == -vo(s, pkg.version);
    }
  }

  function WithNewer(vo: VersionComparison, available: seq<AvailablePackage>): InstalledPackage -> bool {
    (pkg: InstalledPackage) => IsInstalled(pkg.status) && HasNewer(vo, pkg, Candidates(pkg, available))
  }

  /** Upgradable, pinned and backports counts together cover every package with a newer version. */
  lemma CountsCoverNewer(vo: VersionComparison, installed: seq<InstalledPackage>, available: seq<AvailablePackage>)
    requires TotalPreorder(vo)
    ensures var n := CountUpdates(vo, installed, available);
            CountWhere(installed, WithNewer(vo, available)) <= n.upgradable + n.pinned + n.backports
  {
    forall pkg: InstalledPackage | WithNewer(vo, available)(pkg)
      ensures Upgradable(vo, available, false)(pkg) || Pinned(vo, available, false)(pkg) || Backports(vo, available)(pkg)
    {
      var cands := Candidates(pkg, available);
      var c :| c in cands && Newer(vo, c.version, pkg.version);
      NewerIsCounted(vo, pkg, cands, c);
    }
    CountWhereCovered(installed, WithNewer(vo, available),
                      Upgradable(vo, available, false), Pinned(vo, available, false), Backports(vo, available));
  }

  // ----- What pinned means -----

  /** The selected version is below the installed one only at forced-downgrade priority. */
  lemma DowngradesAreForced(vo: VersionComparison, pkg: InstalledPackage, cands: seq<AvailablePackage>)
    requires TotalPreorder(vo)
    ensures var s := Selected(vo, pkg, cands);
            vo(s.version, pkg.version) < 0 ==>
              s.priority >= FORCE_DOWNGRADE_PRIORITY && !HasUpgrade(vo, pkg, cands, false)
  {
    SelectedIsFirstMaximum(vo, pkg, cands);
    assert vo(pkg.version, pkg.version) == -vo(pkg.version, pkg.version);
  }

  /** A pinned update of a package that is not held comes from an archive of strictly lower priority
      than the selected candidate. */
  lemma PinnedHasLowerPriority(vo: VersionComparison, pkg: InstalledPackage, cands: seq<AvailablePackage>,
                               c: AvailablePackage, securityOnly: bool)
    requires TotalPreorder(vo)
    requires c in cands && IsPinnedBy(vo, c, Selected(vo, pkg, cands).version, securityOnly)
    ensures NormalizedPriority(c.priority) < Selected(vo, pkg, cands).priority
  {
    var s := Selected(vo, pkg, cands);
    if Eligible(vo, pkg, c) {
      MembersDoNotBeat(vo, pkg, cands, c);
    } else {
      Chain(vo, s.version, c.version, pkg.version);
      assert vo(s.version, c.version) == -vo(c.version, s.version);
      DowngradesAreForced(vo, pkg, cands);
    }
  }

  /** Some candidate outside backports is newer than the installed version. */
  predicate HasNewerOutsideBackports(vo: VersionComparison, pkg: InstalledPackage, cands: seq<AvailablePackage>) {
    exists c | c in cands :: IsPinnedBy(vo, c, pkg.version, false)
  }

  /** A pinned update is a newer version unless a forced downgrade outranks another candidate. */
  lemma PinnedIsNewerOrForced(vo: VersionComparison, pkg: InstalledPackage, cands: seq<AvailablePackage>)
    requires TotalPreorder(vo) && HasPinned(vo, pkg, cands, false)
    ensures || HasNewerOutsideBackports(vo, pkg, cands)
            || exists c, d :: && c in cands && d in cands
                              && NormalizedPriority(d.priority) >= FORCE_DOWNGRADE_PRIORITY
                              && NormalizedPriority(c.priority) < NormalizedPriority(d.priority)
  {
    var s := Selected(vo, pkg, cands);
    var c :| c in cands && IsPinnedBy(vo, c, PinnedReference(vo, pkg, cands), false);
    if vo(s.version, pkg.version) >= 0 || IsHeld(pkg.status) {
      assert vo(c.version, s.version) == -vo(s.version, c.version) && vo(s.version, pkg.version) == -vo(pkg.version, s.version);
      Chain(vo, pkg.version, s.version, c.version);
      assert vo(c.version, pkg.version) == -vo(pkg.version, c.version);
      assert IsPinnedBy(vo, c, pkg.version, false);
    } else {
      PinnedHasLowerPriority(vo, pkg, cands, c, false);
      DowngradesAreForced(vo, pkg, cands);
      SelectedIsFirstMaximum(vo, pkg, cands);
      var w := Winner(vo, pkg, cands);
      assert cands[w] in cands;
    }
  }

  /** Without forced-downgrade priorities, as in every lists directory, a pinned update is newer. */
  lemma PinnedIsNewer(vo: VersionComparison, pkg: InstalledPackage, cands: seq<AvailablePackage>)
    requires TotalPreorder(vo)
    requires forall c | c in cands :: NormalizedPriority(c.priority) < FORCE_DOWNGRADE_PRIORITY
    ensures HasPinned(vo, pkg, cands, false) ==> HasNewerOutsideBackports(vo, pkg, cands)
  {
    if HasPinned(vo, pkg, cands, false) {
      PinnedIsNewerOrForced(vo, pkg, cands);
    }
  }

  function Offer(pkg: InstalledPackage, version: string, priority: int): AvailablePackage {
    AvailablePackage(pkg.name, pkg.architecture, version, false, priority, false)
  }

  /** The failing family: `v~~` at a forced-downgrade priority outranks `v~`, which is then counted
      as a pinned update of the newer installed version `v`. */
  lemma ForcedDowngradeIsPinned(u: Unicode, pkg: InstalledPackage, high: int, low: int)
    requires AgreesOnAscii(u) && pkg.version != "" && !IsHeld(pkg.status)
    requires NormalizedPriority(high) >= FORCE_DOWNGRADE_PRIORITY
    requires NormalizedPriority(low) < NormalizedPriority(high)
    ensures var cands := [Offer(pkg, pkg.version + "~~", high), Offer(pkg, pkg.version + "~", low)];
            && HasPinned(VersionOrder(u), pkg, cands, false)
            && !HasNewerOutsideBackports(VersionOrder(u), pkg, cands)
  {
    hide VersionOrder;
    var vo := VersionOrder(u);
    VersionOrderIsTotal(u);
    var v := pkg.version;
    SuffixOrder(u, v, "~");
    SuffixOrder(u, v, "~~");
    SuffixOrder(u, v + "~", "~");
    assert v + "~" + "~" == v + "~~";
    var c, d := Offer(pkg, v + "~~", high), Offer(pkg, v + "~", low);
    var cands := [c, d];
    assert cands[..1] == [c] && cands[..1][..0] == [];
    assert Selected(vo, pkg, [c]) == Normalized(c);
    assert Selected(vo, pkg, cands) == Normalized(c);
    assert vo(d.version, c.version) == -vo(c.version, d.version);
    assert d in cands && IsPinnedBy(vo, d, Selected(vo, pkg, cands).version, false);
  }

  ghost predicate PrioritiesFrom(cands: seq<AvailablePackage>, priorities: set<int>) {
    forall c | c in cands :: c.priority in priorities
  }

  /** With archives of the given priorities, every pinned update of a package that is not held is a
      newer version if and only if no forced-downgrade priority exceeds another priority in use. */
  lemma PinnedMeansNewerExactly(u: Unicode, pkg: InstalledPackage, priorities: set<int>)
    requires AgreesOnAscii(u) && pkg.version != "" && !IsHeld(pkg.status)
    ensures (forall cands | PrioritiesFrom(cands, priorities) && HasPinned(VersionOrder(u), pkg, cands, false) ::
               HasNewerOutsideBackports(VersionOrder(u), pkg, cands))
       <==> !exists high, low :: && high in priorities && low in priorities
                                 && NormalizedPriority(high) >= FORCE_DOWNGRADE_PRIORITY
                                 && NormalizedPriority(low) < NormalizedPriority(high)
  {
    hide VersionOrder;
    VersionOrderIsTotal(u);
    if high, low :| && high in priorities && low in priorities
                    && NormalizedPriority(high) >= FORCE_DOWNGRADE_PRIORITY
                    && NormalizedPriority(low) < NormalizedPriority(high) {
      ForcedDowngradeIsPinned(u, pkg, high, low);
      var cands := [Offer(pkg, pkg.version + "~~", high), Offer(pkg, pkg.version + "~", low)];
      assert PrioritiesFrom(cands, priorities);
    } else {
      forall cands | PrioritiesFrom(cands, priorities) && HasPinned(VersionOrder(u), pkg, cands, false)
        ensures HasNewerOutsideBackports(VersionOrder(u), pkg, cands)
      {
        PinnedIsNewerOrForced(VersionOrder(u), pkg, cands);
      }
    }
  }
}
