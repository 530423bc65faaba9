/** What a release file says about the indexes of its archive, in the terms of its fields. */
module ReleaseTexts {
  import opened Text
  import opened Versions
  import opened Deb822Texts
  import opened IndexTexts
  import opened StatusDatabases
  import opened Releases
  import PackageIndexes

  /** "yes" in any case; one non-ASCII letter folds to "s". */
  predicate SaysYes(value: string) {
    var v := TrimSpace(value);
    |v| == 3 && v[0] in ['y', 'Y'] && v[1] in ['e', 'E'] && v[2] in ['s', 'S', '\U{17F}']
  }

  predicate IsNamed(name: string, prefix: string) {
    name == prefix + "_InRelease" || name == prefix + "_Release"
  }

  /** A readable release file with this prefix. */
  predicate Tells(e: ListsEntry, prefix: string) {
    !e.isDir && IsNamed(e.name, prefix) && e.text.Some?
  }

  lemma SuffixIs(p: string, suffix: string)
    ensures HasSuffix(p + suffix, suffix) && (p + suffix)[..|p|] == p
  {
  }

  lemma SuffixMeans(name: string, suffix: string)
    requires HasSuffix(name, suffix)
    ensures name == name[..|name| - |suffix|] + suffix
  {
  }

  lemma SuffixesDiffer(name: string)
    ensures !(HasSuffix(name, "_InRelease") && HasSuffix(name, "_Release"))
  {
    if HasSuffix(name, "_InRelease") {
      assert name[|name| - 10..][2] == 'n';
      assert |name| >= 8 && name[|name| - 8] == 'n';
    }
    assert HasSuffix(name, "_Release") ==> name[|name| - 8..][0] == '_';
  }

  lemma PrefixMeans(name: string, prefix: string)
    ensures ReleasePrefix(name) == Some(prefix) <==> IsNamed(name, prefix)
  {
    SuffixesDiffer(name);
    SuffixIs(prefix, "_InRelease");
    SuffixIs(prefix, "_Release");
    if HasSuffix(name, "_InRelease") { SuffixMeans(name, "_InRelease"); }
    if HasSuffix(name, "_Release") { SuffixMeans(name, "_Release"); }
    hide HasSuffix;
  }

  lemma YesMeans(value: string)
    ensures IsDeb822Yes(value) <==> SaysYes(value)
  {
    hide TrimSpace;
    var v := TrimSpace(value);
    if |v| == 3 {
      assert FoldChar(v[0]) == 'y' <==> v[0] in ['y', 'Y'];
      assert FoldChar(v[1]) == 'e' <==> v[1] in ['e', 'E'];
      assert FoldChar(v[2]) == 's' <==> v[2] in ['s', 'S', '\U{17F}'];
      hide FoldChar;
    }
  }

  /** The fields a release file is asked for, each at most once. */
  ghost predicate ReleaseLines(ls: seq<Line>) {
    AllPlain(ls) && forall key | key in ReleaseKeys() :: CountOf(ls, key) <= 1
  }

  function ReleaseKeys(): seq<string> {
    ["NotAutomatic", "ButAutomaticUpgrades", "Archive", "Suite", "Codename", "Label"]
  }

  lemma ReleaseSays(ls: seq<Line>, key: string)
    requires ReleaseLines(ls) && key in ReleaseKeys()
    ensures Field(Deb822(LinesText(ls), "", map[]), key) == FullValue(ls, key)
  {
    StanzaSays(ls, key);
  }

  lemma PriorityMeans(ls: seq<Line>, prefix: string)
    requires ReleaseLines(ls)
    ensures MetadataOf(prefix, LinesText(ls)).priority ==
              if !SaysYes(FullValue(ls, "NotAutomatic")) then 500
              else if SaysYes(FullValue(ls, "ButAutomaticUpgrades")) then 100
              else 1
  {
    ReleaseSays(ls, "NotAutomatic");
    ReleaseSays(ls, "ButAutomaticUpgrades");
    YesMeans(FullValue(ls, "NotAutomatic"));
    YesMeans(FullValue(ls, "ButAutomaticUpgrades"));
    hide Deb822, LinesText, FullValue, IsDeb822Yes, SaysYes, Field, ReleaseIsBackports;
  }

  lemma BackportsMeans(ls: seq<Line>, prefix: string)
    requires ReleaseLines(ls)
    ensures MetadataOf(prefix, LinesText(ls)).backports <==>
              || Mentions(prefix, "backports")
              || Mentions(FullValue(ls, "Archive"), "backports") || Mentions(FullValue(ls, "Suite"), "backports")
              || Mentions(FullValue(ls, "Codename"), "backports") || Mentions(FullValue(ls, "Label"), "backports")
  {
    ReleaseSays(ls, "Archive");
    ReleaseSays(ls, "Suite");
    ReleaseSays(ls, "Codename");
    ReleaseSays(ls, "Label");
    FieldsMean(prefix, Deb822(LinesText(ls), "", map[]));
    hide Deb822, LinesText, FullValue, Mentions, Field, ReleasePriority, ReleaseIsBackports, ReleaseLines;
  }

  lemma FieldsMean(prefix: string, fields: map<string, string>)
    ensures ReleaseIsBackports(prefix, fields) <==>
              || Mentions(prefix, "backports")
              || Mentions(Field(fields, "Archive"), "backports") || Mentions(Field(fields, "Suite"), "backports")
              || Mentions(Field(fields, "Codename"), "backports") || Mentions(Field(fields, "Label"), "backports")
  {
    ContainsFoldMeans(prefix, "backports");
    ContainsFoldMeans(Field(fields, "Archive"), "backports");
    ContainsFoldMeans(Field(fields, "Suite"), "backports");
    ContainsFoldMeans(Field(fields, "Codename"), "backports");
    ContainsFoldMeans(Field(fields, "Label"), "backports");
    hide Mentions, PackageIndexes.ContainsFold, Field;
    var values := [prefix, Field(fields, "Archive"), Field(fields, "Suite"), Field(fields, "Codename"), Field(fields, "Label")];
    AmongFive(values);
  }

  lemma AmongFive(values: seq<string>)
    requires |values| == 5
    ensures (exists value | value in values :: PackageIndexes.IsBackportsValue(value)) <==>
              || PackageIndexes.IsBackportsValue(values[0]) || PackageIndexes.IsBackportsValue(values[1]) || PackageIndexes.IsBackportsValue(values[2])
              || PackageIndexes.IsBackportsValue(values[3]) || PackageIndexes.IsBackportsValue(values[4])
  {
    hide PackageIndexes.IsBackportsValue;
  }

  /** The last readable release file with a prefix decides: 500 unless it is not automatic, and then
      100 if upgrades are automatic, else 1; a backports archive if the prefix or one of four fields
      says so. */
  lemma ReleaseFileMeans(entries: seq<ListsEntry>, releases: map<string, ReleaseMetadata>, i: nat, prefix: string, ls: seq<Line>)
    requires IsReleaseMap(entries, releases) && i < |entries| && Tells(entries[i], prefix)
    requires forall k | i < k < |entries| :: !Tells(entries[k], prefix)
    requires ReleaseLines(ls) && entries[i].text == Some(LinesText(ls))
    ensures prefix in releases
    ensures releases[prefix].priority ==
              if !SaysYes(FullValue(ls, "NotAutomatic")) then 500
              else if SaysYes(FullValue(ls, "ButAutomaticUpgrades")) then 100
              else 1
    ensures releases[prefix].backports <==>
              || Mentions(prefix, "backports")
              || Mentions(FullValue(ls, "Archive"), "backports") || Mentions(FullValue(ls, "Suite"), "backports")
              || Mentions(FullValue(ls, "Codename"), "backports") || Mentions(FullValue(ls, "Label"), "backports")
  {
    PriorityMeans(ls, prefix);
    BackportsMeans(ls, prefix);
    hide MetadataOf, FullValue, LinesText, Mentions, SaysYes, ReleaseLines, ReleasePrefix, IsNamed;
    forall e | e in entries ensures Describes(e, prefix) <==> Tells(e, prefix) {
      PrefixMeans(e.name, prefix);
    }
    assert entries[i] in entries && Describes(entries[i], prefix);
    assert DescribedBy(entries, prefix, releases[prefix]);
  }

  /** There is no other release: every entry of the map stems from a readable release file. */
  lemma ReleasesAreTold(entries: seq<ListsEntry>, releases: map<string, ReleaseMetadata>, prefix: string)
    requires IsReleaseMap(entries, releases)
    ensures prefix in releases <==> exists e | e in entries :: Tells(e, prefix)
  {
    hide MetadataOf, ReleasePrefix, IsNamed;
    forall e | e in entries ensures Describes(e, prefix) <==> Tells(e, prefix) {
      PrefixMeans(e.name, prefix);
    }
    if prefix in releases {
      assert DescribedBy(entries, prefix, releases[prefix]);
    }
  }

  /** An index file belongs to the release with the longest non-empty prefix that an underscore
      separates from the rest of its name; without any it has priority 500, and its name says whether
      it is a backports index. */
  lemma IndexBelongsToRelease(name: string, releases: map<string, ReleaseMetadata>, m: ReleaseMetadata)
    requires IsMetadata(name, releases, m)
    ensures forall p, rest | p in releases && p != "" && name == p + ("_" + rest)
                            && (forall q, more | q in releases && name == q + ("_" + more) :: |q| <= |p|) :: m == releases[p]
    ensures (forall p, rest | p in releases && name == p + ("_" + rest) :: p == "") ==>
              m == ReleaseMetadata(500, Mentions(name, "backports"))
  {
    forall p, rest | p in releases && p != "" && name == p + ("_" + rest)
                     && (forall q, more | q in releases && name == q + ("_" + more) :: |q| <= |p|)
      ensures m == releases[p]
    {
      LongestDecides(name, releases, m, p, rest);
    }
    if forall p, rest | p in releases && name == p + ("_" + rest) :: p == "" {
      NoneApplies(name, releases);
      ContainsFoldMeans(name, "backports");
      hide Applies, PackageIndexes.ContainsFold, Mentions;
    }
  }

  lemma AppliesMeans(name: string, q: string)
    ensures Applies(name, q) <==> exists rest :: name == q + ("_" + rest)
  {
    if Applies(name, q) {
      assert name == (q + "_") + name[|q| + 1..] == q + ("_" + name[|q| + 1..]);
    }
    if rest :| name == q + ("_" + rest) {
      assert name == (q + "_") + rest;
    }
  }

  lemma LongestDecides(name: string, releases: map<string, ReleaseMetadata>, m: ReleaseMetadata, p: string, rest: string)
    requires IsMetadata(name, releases, m) && p in releases && p != "" && name == p + ("_" + rest)
    requires forall q, more | q in releases && name == q + ("_" + more) :: |q| <= |p|
    ensures m == releases[p]
  {
    AppliesMeans(name, p);
    forall q | q in releases && Applies(name, q) ensures |q| <= |p| {
      AppliesMeans(name, q);
    }
    hide Applies;
    assert IsLongest(name, releases, p);
    MetadataIsUnique(name, releases, m, releases[p]);
  }

  lemma NoneApplies(name: string, releases: map<string, ReleaseMetadata>)
    requires forall p, rest | p in releases && name == p + ("_" + rest) :: p == ""
    ensures forall q | q in releases && q != "" :: !Applies(name, q)
  {
    forall q | q in releases && q != "" ensures !Applies(name, q) {
      AppliesMeans(name, q);
    }
  }
}
