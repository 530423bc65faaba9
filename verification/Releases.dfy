/** Which files of the lists directory matter, and the release metadata that applies to an index. */
module Releases {
  import opened Text
  import opened Versions
  import opened Packages
  import opened PackageIndexes
  import opened StatusDatabases

  predicate HasSuffix(s: string, suffix: string) {
    |suffix| <= |s| && s[|s| - |suffix|..] == suffix
  }

  const INDEX_SUFFIXES := ["_Packages", "_Packages.bz", "_Packages.bz2", "_Packages.gz", "_Packages.lz4", "_Packages.xz"]

  predicate IsPackageIndexFile(name: string) {
    exists suffix | suffix in INDEX_SUFFIXES :: HasSuffix(name, suffix)
  }

  function ReleasePrefix(name: string): Option<string> {
    if HasSuffix(name, "_InRelease") then Some(name[..|name| - |"_InRelease"|])
    else if HasSuffix(name, "_Release") then Some(name[..|name| - |"_Release"|])
    else None
  }

  /** Only relevant files enter the revision. */
  predicate IsRelevant(name: string) {
    IsPackageIndexFile(name) || ReleasePrefix(name).Some?
  }

  datatype ReleaseMetadata = ReleaseMetadata(priority: int, backports: bool)

  const NOT_AUTOMATIC_PRIORITY := 1
  const NOT_AUTOMATIC_UPGRADES_PRIORITY := 100

  /** Simple case folding onto ASCII letters: two non-ASCII characters fold onto one. */
  function FoldChar(c: char): char {
    if 'A' <= c <= 'Z' then (c as int + 32) as char
    else if c == '\U{17F}' then 's'
    else if c == '\U{212A}' then 'k'
    else c
  }

  /** `strings.EqualFold` against a lower-case ASCII word. */
  predicate EqualFold(s: string, word: string) {
    |s| == |word| && forall j | 0 <= j < |s| :: FoldChar(s[j]) == word[j]
  }

  predicate IsDeb822Yes(value: string) {
    EqualFold(TrimSpace(value), "yes")
  }

  function ReleasePriority(fields: map<string, string>): (p: int)
    ensures p in {1, 100, 500}
  {
    if IsDeb822Yes(Field(fields, "NotAutomatic")) then
      if IsDeb822Yes(Field(fields, "ButAutomaticUpgrades")) then NOT_AUTOMATIC_UPGRADES_PRIORITY else NOT_AUTOMATIC_PRIORITY
    else DEFAULT_PRIORITY
  }

  predicate ReleaseIsBackports(prefix: string, fields: map<string, string>) {
    exists value | value in [prefix, Field(fields, "Archive"), Field(fields, "Suite"), Field(fields, "Codename"),
                             Field(fields, "Label")] :: IsBackportsValue(value)
  }

  // ----- The release files of a directory -----

  /** An entry of the lists directory; `None` is a file that cannot be read. */
  datatype ListsEntry = ListsEntry(name: string, isDir: bool, text: Option<string>)

  predicate IsReleaseFile(e: ListsEntry, prefix: string) {
    !e.isDir && ReleasePrefix(e.name) == Some(prefix)
  }

  predicate Describes(e: ListsEntry, prefix: string) {
    IsReleaseFile(e, prefix) && e.text.Some?
  }

  function MetadataOf(prefix: string, text: string): ReleaseMetadata {
    var fields := Deb822(text, "", map[]);
    ReleaseMetadata(ReleasePriority(fields), ReleaseIsBackports(prefix, fields))
  }

  /** The last readable release file with this prefix decides. */
  ghost predicate DescribedBy(entries: seq<ListsEntry>, prefix: string, m: ReleaseMetadata) {
    exists i | 0 <= i < |entries| ::
      && Describes(entries[i], prefix) && m == MetadataOf(prefix, entries[i].text.value)
      && forall k | i < k < |entries| :: !Describes(entries[k], prefix)
  }

  ghost predicate IsReleaseMap(entries: seq<ListsEntry>, releases: map<string, ReleaseMetadata>) {
    && (forall prefix | prefix in releases :: DescribedBy(entries, prefix, releases[prefix]))
    && forall e, prefix | e in entries && Describes(e, prefix) :: prefix in releases
  }

  /** Unreadable release files are skipped and reported. */
  method ReadReleaseMetadata(entries: seq<ListsEntry>) returns (releases: map<string, ReleaseMetadata>, failed: bool)
    ensures IsReleaseMap(entries, releases)
    ensures failed <==> exists e | e in entries :: !e.isDir && ReleasePrefix(e.name).Some? && e.text.None?
  {
    hide ReleasePrefix, MetadataOf, DescribedBy;
    releases, failed := map[], false;
    for i := 0 to |entries|
      invariant IsReleaseMap(entries[..i], releases)
      invariant failed <==> exists e | e in entries[..i] :: !e.isDir && ReleasePrefix(e.name).Some? && e.text.None?
    {
      var entry := entries[i];
      assert entries[..i + 1] == entries[..i] + [entry];
      ReleaseMapGrows(entries[..i], releases, entry);
      if entry.isDir {
        continue;
      }
      var prefix := ReleasePrefix(entry.name);
      if prefix.None? {
        continue;
      }
      if entry.text.None? {
        failed := true;
        continue;
      }
      var fields := ParseDeb822Fields(entry.text.value);
      var metadata := ReleaseMetadata(ReleasePriority(fields), ReleaseIsBackports(prefix.value, fields));
      assert metadata == MetadataOf(prefix.value, entry.text.value) by { MetadataFields(prefix.value, entry.text.value); }
      releases := releases[prefix.value := metadata];
    }
    assert entries[..|entries|] == entries;
  }

  lemma MetadataFields(prefix: string, text: string)
    ensures var fields := Deb822(text, "", map[]);
            MetadataOf(prefix, text) == ReleaseMetadata(ReleasePriority(fields), ReleaseIsBackports(prefix, fields))
  {
  }

  /** One more entry overrides what its prefix meant before, or changes nothing. */
  lemma ReleaseMapGrows(entries: seq<ListsEntry>, releases: map<string, ReleaseMetadata>, e: ListsEntry)
    requires IsReleaseMap(entries, releases)
    ensures var prefix := ReleasePrefix(e.name);
            IsReleaseMap(entries + [e],
                         if !e.isDir && prefix.Some? && e.text.Some? then
                           releases[prefix.value := MetadataOf(prefix.value, e.text.value)]
                         else releases)
  {
    hide ReleasePrefix, MetadataOf;
    var more := entries + [e];
    forall prefix, m | DescribedBy(entries, prefix, m) && !Describes(e, prefix) ensures DescribedBy(more, prefix, m) {
      var i :| && 0 <= i < |entries| && Describes(entries[i], prefix) && m == MetadataOf(prefix, entries[i].text.value)
               && forall k | i < k < |entries| :: !Describes(entries[k], prefix);
      assert more[i] == entries[i];
    }
    assert more[|entries|] == e;
  }

  /** The release file with prefix `p` applies to the index file `name`. */
  predicate Applies(name: string, p: string) {
    p + "_" <= name
  }

  function DefaultMetadata(name: string): ReleaseMetadata {
    ReleaseMetadata(DEFAULT_PRIORITY, IsBackportsValue(name))
  }

  /** `p` is the longest non-empty applicable prefix. */
  ghost predicate IsLongest(name: string, releases: map<string, ReleaseMetadata>, p: string) {
    && p in releases && p != "" && Applies(name, p)
    && forall q | q in releases && Applies(name, q) :: |q| <= |p|
  }

  /** `m` is the entry of the longest non-empty applicable prefix, or the default if there is none. */
  ghost predicate IsMetadata(name: string, releases: map<string, ReleaseMetadata>, m: ReleaseMetadata) {
    || (exists p :: IsLongest(name, releases, p) && m == releases[p])
    || ((forall q | q in releases && q != "" :: !Applies(name, q)) && m == DefaultMetadata(name))
  }

  /** The loop visits the releases in whatever order the map yields them. */
  method PackageIndexMetadata(name: string, releases: map<string, ReleaseMetadata>) returns (metadata: ReleaseMetadata)
    ensures IsMetadata(name, releases, metadata)
  {
    metadata := DefaultMetadata(name);
    ghost var longest := "";
    var longestPrefix := 0;
    var remaining := releases.Keys;
    while remaining != {}
      invariant remaining <= releases.Keys
      invariant longestPrefix == |longest|
      invariant longest == "" ==> metadata == DefaultMetadata(name)
      invariant longest != "" ==> longest in releases && Applies(name, longest) && metadata == releases[longest]
      invariant forall q | q in releases && q !in remaining && Applies(name, q) :: |q| <= |longest|
    {
      var prefix :| prefix in remaining;
      remaining := remaining - {prefix};
      if !(prefix + "_" <= name) {
        continue;
      }
      if |prefix| <= longestPrefix {
        continue;
      }
      metadata := releases[prefix];
      longestPrefix := |prefix|;
      longest := prefix;
    }
    if longest != "" {
      assert IsLongest(name, releases, longest);
    }
  }

  /** The answer is the same for every iteration order of the map. */
  lemma MetadataIsUnique(name: string, releases: map<string, ReleaseMetadata>, m: ReleaseMetadata, n: ReleaseMetadata)
    requires IsMetadata(name, releases, m) && IsMetadata(name, releases, n)
    ensures m == n
  {
    if p :| IsLongest(name, releases, p) && m == releases[p] {
      if q :| IsLongest(name, releases, q) && n == releases[q] {
        assert p == name[..|p|] && q == name[..|q|];
      }
    }
  }

  /** Whatever the release files say, every index gets one of the program's three priorities: forced
      downgrades never arise from the lists directory. */
  lemma PrioritiesAreModest(entries: seq<ListsEntry>, releases: map<string, ReleaseMetadata>, name: string, m: ReleaseMetadata)
    requires IsReleaseMap(entries, releases) && IsMetadata(name, releases, m)
    ensures m.priority in {1, 100, 500} && NormalizedPriority(m.priority) < FORCE_DOWNGRADE_PRIORITY
  {
    hide ReleaseIsBackports, IsDeb822Yes;
  }

  /** The directory determines the release map. */
  lemma ReleaseMapIsUnique(entries: seq<ListsEntry>, a: map<string, ReleaseMetadata>, b: map<string, ReleaseMetadata>)
    requires IsReleaseMap(entries, a) && IsReleaseMap(entries, b)
    ensures a == b
  {
    hide MetadataOf, ReleasePrefix;
    assert forall p :: p in a <==> p in b;
    forall p | p in a ensures a[p] == b[p] {
      assert DescribedBy(entries, p, a[p]) && DescribedBy(entries, p, b[p]);
    }
  }
}
