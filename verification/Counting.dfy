/** The grouping index, the update predicates and the counting loops. */
module Counting {
  import opened Packages
  import opened Policy
  import opened Versions

  // ----- Grouping -----

  datatype PackageKey = PackageKey(name: string, arch: string)

  function KeyOf(c: AvailablePackage): PackageKey {
    PackageKey(c.name, c.architecture)
  }

  /** The packages filed under `k`, in their original order. */
  function WithKey(available: seq<AvailablePackage>, k: PackageKey): seq<AvailablePackage> {
    if available == [] then []
    else
      var last := available[|available| - 1];
      WithKey(available[..|available| - 1], k) + if KeyOf(last) == k then [last] else []
  }

  lemma {:induction false} WithKeyMembers(available: seq<AvailablePackage>, k: PackageKey)
    ensures forall c :: c in WithKey(available, k) <==> c in available && KeyOf(c) == k
  {
    if available != [] {
      WithKeyMembers(available[..|available| - 1], k);
      assert available == available[..|available| - 1] + [available[|available| - 1]];
    }
  }

  function Lookup(index: map<PackageKey, seq<AvailablePackage>>, k: PackageKey): seq<AvailablePackage> {
    if k in index then index[k] else []
  }

  method AvailableByPackageKey(available: seq<AvailablePackage>) returns (index: map<PackageKey, seq<AvailablePackage>>)
    ensures forall k :: Lookup(index, k) == WithKey(available, k)
  {
    index := map[];
    for i := 0 to |available|
      invariant forall k :: Lookup(index, k) == WithKey(available[..i], k)
    {
      assert available[..i + 1][..i] == available[..i];
      var k := KeyOf(available[i]);
      index := index[k := Lookup(index, k) + [available[i]]];
    }
    assert available[..|available|] == available;
  }

  function PackageCandidates(pkg: InstalledPackage, index: map<PackageKey, seq<AvailablePackage>>): seq<AvailablePackage> {
    var candidates := Lookup(index, PackageKey(pkg.name, pkg.architecture));
    if |candidates| == 0 && pkg.architecture != "all" then Lookup(index, PackageKey(pkg.name, "all"))
    else candidates
  }

  /** The candidates of `pkg` found by scanning the whole list. */
  function Candidates(pkg: InstalledPackage, available: seq<AvailablePackage>): seq<AvailablePackage> {
    var own := WithKey(available, PackageKey(pkg.name, pkg.architecture));
    if own == [] && pkg.architecture != "all" then WithKey(available, PackageKey(pkg.name, "all")) else own
  }

  // ----- Update predicates -----

  /** The policy would replace the installed version by a newer one. */
  predicate HasUpgrade(vo: VersionComparison, pkg: InstalledPackage, cands: seq<AvailablePackage>, securityOnly: bool) {
    && pkg.version != ""
    && Newer(vo, Selected(vo, pkg, cands).version, pkg.version)
    && (securityOnly ==> Selected(vo, pkg, cands).security)
  }

  method BestUpgradeCandidate(u: Unicode, pkg: InstalledPackage, cands: seq<AvailablePackage>)
    returns (best: Option<AvailablePackage>)
    ensures best.Some? <==> HasUpgrade(VersionOrder(u), pkg, cands, false)
    ensures best.Some? ==> best.value == Selected(VersionOrder(u), pkg, cands)
  {
    if pkg.version == "" {
      return None;
    }
    var b := BestPolicyCandidate(u, pkg, cands);
    var cmp := CompareVersions(u, b.version, pkg.version);
    return if cmp <= 0 then None else Some(b);
  }

  predicate IsPinnedBy(vo: VersionComparison, c: AvailablePackage, against: string, securityOnly: bool) {
    !c.backports && (securityOnly ==> c.security) && Newer(vo, c.version, against)
  }

  /** What a pinned candidate has to exceed. */
  function PinnedReference(vo: VersionComparison, pkg: InstalledPackage, cands: seq<AvailablePackage>): string {
    if IsHeld(pkg.status) then pkg.version else Selected(vo, pkg, cands).version
  }

  predicate HasPinned(vo: VersionComparison, pkg: InstalledPackage, cands: seq<AvailablePackage>, securityOnly: bool) {
    && pkg.version != ""
    && exists c | c in cands :: IsPinnedBy(vo, c, PinnedReference(vo, pkg, cands), securityOnly)
  }

  method HasPinnedUpdate(u: Unicode, pkg: InstalledPackage, cands: seq<AvailablePackage>, securityOnly: bool) returns (r: bool)
    ensures r == HasPinned(VersionOrder(u), pkg, cands, securityOnly)
  {
    hide VersionOrder;
    if pkg.version == "" {
      return false;
    }
    var selected := BestPolicyCandidate(u, pkg, cands);
    var compareVersion := selected.version;
    if IsHeld(pkg.status) {
      compareVersion := pkg.version;
    }
    assert compareVersion == PinnedReference(VersionOrder(u), pkg, cands);
    for i := 0 to |cands|
      invariant forall j | 0 <= j < i :: !IsPinnedBy(VersionOrder(u), cands[j], compareVersion, securityOnly)
    {
      if cands[i].backports {
        continue;
      }
      if securityOnly && !cands[i].security {
        continue;
      }
      var cmp := CompareVersions(u, cands[i].version, compareVersion);
      if cmp > 0 {
        assert cands[i] in cands && IsPinnedBy(VersionOrder(u), cands[i], compareVersion, securityOnly);
        return true;
      }
    }
    return false;
  }

  predicate HasBackports(vo: VersionComparison, pkg: InstalledPackage, cands: seq<AvailablePackage>) {
    && pkg.version != ""
    && exists c | c in cands :: c.backports && Newer(vo, c.version, pkg.version)
  }

  method HasBackportsUpdate(u: Unicode, pkg: InstalledPackage, cands: seq<AvailablePackage>) returns (r: bool)
    ensures r == HasBackports(VersionOrder(u), pkg, cands)
  {
    hide VersionOrder;
    if pkg.version == "" {
      return false;
    }
    for i := 0 to |cands|
      invariant forall j | 0 <= j < i :: !(cands[j].backports && Newer(VersionOrder(u), cands[j].version, pkg.version))
    {
      if !cands[i].backports {
        continue;
      }
      var cmp := CompareVersions(u, cands[i].version, pkg.version);
      if cmp > 0 {
        return true;
      }
    }
    return false;
  }

  // ----- Which packages each metric counts, by scanning the unindexed list -----

  function Upgradable(vo: VersionComparison, available: seq<AvailablePackage>, securityOnly: bool): InstalledPackage -> bool {
    (pkg: InstalledPackage) =>
      IsInstalled(pkg.status) && !IsHeld(pkg.status) && HasUpgrade(vo, pkg, Candidates(pkg, available), securityOnly)
  }

  function Pinned(vo: VersionComparison, available: seq<AvailablePackage>, securityOnly: bool): InstalledPackage -> bool {
    (pkg: InstalledPackage) =>
      IsInstalled(pkg.status) && HasPinned(vo, pkg, Candidates(pkg, available), securityOnly)
  }

  function Backports(vo: VersionComparison, available: seq<AvailablePackage>): InstalledPackage -> bool {
    (pkg: InstalledPackage) =>
      IsInstalled(pkg.status) && HasBackports(vo, pkg, Candidates(pkg, available))
  }

  /** Looking up the index finds what a scan of the list finds. */
  lemma IndexedCandidates(pkg: InstalledPackage, index: map<PackageKey, seq<AvailablePackage>>,
                          available: seq<AvailablePackage>)
    requires forall k :: Lookup(index, k) == WithKey(available, k)
    ensures PackageCandidates(pkg, index) == Candidates(pkg, available)
  {
    hide WithKey, Lookup;
  }

  method CountUpgradableByKey(u: Unicode, installed: seq<InstalledPackage>, index: map<PackageKey, seq<AvailablePackage>>,
                              securityOnly: bool, ghost available: seq<AvailablePackage>) returns (count: nat)
    requires forall k :: Lookup(index, k) == WithKey(available, k)
    ensures count == CountWhere(installed, Upgradable(VersionOrder(u), available, securityOnly))
  {
    hide CountWhere, Lookup, PackageCandidates, Candidates, VersionOrder;
    CountWhereNone(Upgradable(VersionOrder(u), available, securityOnly));
    count := 0;
    for i := 0 to |installed|
      invariant count == CountWhere(installed[..i], Upgradable(VersionOrder(u), available, securityOnly))
    {
      var pkg := installed[i];
      CountWhereSnoc(installed, i, Upgradable(VersionOrder(u), available, securityOnly));
      IndexedCandidates(pkg, index, available);
      if !IsInstalled(pkg.status) {
        continue;
      }
      if IsHeld(pkg.status) {
        continue;
      }
      var candidate := BestUpgradeCandidate(u, pkg, PackageCandidates(pkg, index));
      if candidate.None? {
        continue;
      }
      if securityOnly && !candidate.value.security {
        continue;
      }
      var cmp := CompareVersions(u, candidate.value.version, pkg.version);
      if cmp > 0 {
        count := count + 1;
      }
    }
    assert installed[..|installed|] == installed;
  }

  method CountPinnedUpdatesByKey(u: Unicode, installed: seq<InstalledPackage>, index: map<PackageKey, seq<AvailablePackage>>,
                                 securityOnly: bool, ghost available: seq<AvailablePackage>) returns (count: nat)
    requires forall k :: Lookup(index, k) == WithKey(available, k)
    ensures count == CountWhere(installed, Pinned(VersionOrder(u), available, securityOnly))
  {
    hide CountWhere, Lookup, PackageCandidates, Candidates, VersionOrder;
    CountWhereNone(Pinned(VersionOrder(u), available, securityOnly));
    count := 0;
    for i := 0 to |installed|
      invariant count == CountWhere(installed[..i], Pinned(VersionOrder(u), available, securityOnly))
    {
      var pkg := installed[i];
      CountWhereSnoc(installed, i, Pinned(VersionOrder(u), available, securityOnly));
      IndexedCandidates(pkg, index, available);
      if !IsInstalled(pkg.status) {
        continue;
      }
      var pinned := HasPinnedUpdate(u, pkg, PackageCandidates(pkg, index), securityOnly);
      if pinned {
        count := count + 1;
      }
    }
    assert installed[..|installed|] == installed;
  }

  method CountBackportsUpdatesByKey(u: Unicode, installed: seq<InstalledPackage>, index: map<PackageKey, seq<AvailablePackage>>,
                                    ghost available: seq<AvailablePackage>) returns (count: nat)
    requires forall k :: Lookup(index, k) == WithKey(available, k)
    ensures count == CountWhere(installed, Backports(VersionOrder(u), available))
  {
    hide CountWhere, Lookup, PackageCandidates, Candidates, VersionOrder;
    CountWhereNone(Backports(VersionOrder(u), available));
    count := 0;
    for i := 0 to |installed|
      invariant count == CountWhere(installed[..i], Backports(VersionOrder(u), available))
    {
      var pkg := installed[i];
      CountWhereSnoc(installed, i, Backports(VersionOrder(u), available));
      IndexedCandidates(pkg, index, available);
      if !IsInstalled(pkg.status) {
        continue;
      }
      var newer := HasBackportsUpdate(u, pkg, PackageCandidates(pkg, index));
      if newer {
        count := count + 1;
      }
    }
    assert installed[..|installed|] == installed;
  }

  /** The five update counts. */
  datatype UpdateCounts = UpdateCounts(
    upgradable: nat, securityUpgradable: nat, pinned: nat, securityPinned: nat, backports: nat)

  function CountUpdates(vo: VersionComparison, installed: seq<InstalledPackage>, available: seq<AvailablePackage>): UpdateCounts {
    UpdateCounts(
      CountWhere(installed, Upgradable(vo, available, false)),
      CountWhere(installed, Upgradable(vo, available, true)),
      CountWhere(installed, Pinned(vo, available, false)),
      CountWhere(installed, Pinned(vo, available, true)),
      CountWhere(installed, Backports(vo, available)))
  }

  method CountAll(u: Unicode, installed: seq<InstalledPackage>, available: seq<AvailablePackage>) returns (counts: UpdateCounts)
    ensures counts == CountUpdates(VersionOrder(u), installed, available)
  {
    var index := AvailableByPackageKey(available);
    var upgradable := CountUpgradableByKey(u, installed, index, false, available);
    var securityUpgradable := CountUpgradableByKey(u, installed, index, true, available);
    var pinned := CountPinnedUpdatesByKey(u, installed, index, false, available);
    var securityPinned := CountPinnedUpdatesByKey(u, installed, index, true, available);
    var backports := CountBackportsUpdatesByKey(u, installed, index, available);
    counts := UpdateCounts(upgradable, securityUpgradable, pinned, securityPinned, backports);
  }
}
