/** The two cache-key strings, and what their equality implies. */
module Revisions {
  import opened Orders
  import opened Sorting
  import opened Text
  import opened Packages
  import opened PackageIndexes

  // ----- Strings of lines -----

  function Joined(lines: seq<string>): string {
    if lines == [] then "" else lines[0] + Joined(lines[1..])
  }

  /** A newline at the end and nowhere else. */
  predicate IsLine(s: string) {
    s != "" && s[|s| - 1] == '\n' && Lacks(s[..|s| - 1], '\n')
  }

  lemma FirstNewline(line: string, rest: string)
    requires IsLine(line)
    ensures IndexOf(line + rest, '\n') == |line| - 1
  {
    var body := line[..|line| - 1];
    IndexOfLacks(body, '\n');
    var tail := "\n" + rest;
    assert line + rest == body + tail;
    IndexOfAppend(body, tail, '\n');
  }

  lemma JoinedNonEmpty(a: seq<string>)
    requires a != [] && IsLine(a[0])
    ensures Joined(a) != ""
  {
  }

  /** A text determines the lines it was joined from. */
  lemma {:induction false} JoinedIsInjective(a: seq<string>, b: seq<string>)
    requires forall l | l in a :: IsLine(l)
    requires forall l | l in b :: IsLine(l)
    requires Joined(a) == Joined(b)
    ensures a == b
  {
    if a != [] { JoinedNonEmpty(a); }
    if b != [] { JoinedNonEmpty(b); }
    if a != [] && b != [] {
      var x, y := a[0], b[0];
      assert IsLine(x) && IsLine(y);
      FirstNewline(x, Joined(a[1..]));
      FirstNewline(y, Joined(b[1..]));
      var all := Joined(a);
      assert all == x + Joined(a[1..]) && all == y + Joined(b[1..]);
      assert x == all[..|x|] && y == all[..|y|];
      assert Joined(a[1..]) == all[|x|..] && Joined(b[1..]) == all[|y|..];
      JoinedIsInjective(a[1..], b[1..]);
      assert a == [x] + a[1..] && b == [y] + b[1..];
    }
  }

  function StringCmp(): (string, string) -> int {
    (a: string, b: string) => StringOrder(a, b)
  }

  lemma StringCmpIsTotal()
    ensures TotalPreorder(StringCmp())
    ensures forall s: seq<string> :: Distinguishes(StringCmp(), s)
  {
    var cmp := StringCmp();
    forall x, y ensures -1 <= cmp(x, y) <= 1 && cmp(x, y) == -cmp(y, x) && (cmp(x, y) == 0 ==> x == y) {
      StringOrderIsTotal(x, y, "");
    }
    forall x, y, z | cmp(x, y) <= 0 && cmp(y, z) <= 0 ensures cmp(x, z) <= 0 {
      StringOrderIsTotal(x, y, z);
    }
  }

  // ----- Installed packages -----

  datatype InstalledKey = InstalledKey(name: string, arch: string, version: string)

  function KeysOf(pkg: InstalledPackage): seq<InstalledKey> {
    if IsInstalled(pkg.status) then [InstalledKey(pkg.name, ArchOrAll(pkg.architecture), pkg.version)] else []
  }

  /** The keys are those of the installed packages. */
  lemma KeysAre(pkg: InstalledPackage)
    ensures var present := |pkg.status| == 3 && pkg.status[0] in ["install", "hold"] && pkg.status[2] == "installed";
            var arch := if pkg.architecture == "" then "all" else pkg.architecture;
            KeysOf(pkg) == if present then [InstalledKey(pkg.name, arch, pkg.version)] else []
  {
  }

  function FormatKey(k: InstalledKey): string {
    k.name + ":" + k.arch + ":" + k.version + "\n"
  }

  function LinesOf(pkg: InstalledPackage): seq<string> {
    if IsInstalled(pkg.status) then [FormatKey(KeysOf(pkg)[0])] else []
  }

  function InstalledRevision(installed: seq<InstalledPackage>): string {
    Joined(Sort(StringCmp(), FlatMap(LinesOf, installed)))
  }

  method InstalledPackageRevision(installed: seq<InstalledPackage>) returns (revision: string)
    ensures revision == InstalledRevision(installed)
  {
    hide FlatMap, Sort, Joined, IsInstalled, LinesOf;
    var revisions: seq<string> := [];
    NoLines();
    for i := 0 to |installed|
      invariant revisions == FlatMap(LinesOf, installed[..i])
    {
      LinesGrow(installed, i);
      LineIs(installed[i]);
      var pkg := installed[i];
      if !IsInstalled(pkg.status) {
        continue;
      }
      var arch := if pkg.architecture == "" then "all" else pkg.architecture;
      revisions := revisions + [pkg.name + ":" + arch + ":" + pkg.version + "\n"];
    }
    assert installed[..|installed|] == installed;
    revisions := Sort(StringCmp(), revisions);
    revision := "";
    assert revisions[0..] == revisions;
    for i := 0 to |revisions|
      invariant revision + Joined(revisions[i..]) == Joined(revisions)
    {
      JoinedMore(revision, revisions, i);
      revision := revision + revisions[i];
    }
    JoinedEnd();
    assert revisions[|revisions|..] == [] && revision + "" == revision;
  }

  lemma NoLines()
    ensures FlatMap(LinesOf, []) == []
  {
  }

  lemma LinesGrow(installed: seq<InstalledPackage>, i: nat)
    requires i < |installed|
    ensures FlatMap(LinesOf, installed[..i + 1]) == FlatMap(LinesOf, installed[..i]) + LinesOf(installed[i])
  {
    assert installed[..i + 1][..i] == installed[..i];
  }

  lemma LineIs(pkg: InstalledPackage)
    ensures var arch := if pkg.architecture == "" then "all" else pkg.architecture;
            LinesOf(pkg) == if !IsInstalled(pkg.status) then []
                            else [pkg.name + ":" + arch + ":" + pkg.version + "\n"]
  {
  }

  lemma JoinedMore(prefix: string, lines: seq<string>, i: nat)
    requires i < |lines|
    ensures (prefix + lines[i]) + Joined(lines[i + 1..]) == prefix + Joined(lines[i..])
  {
    assert lines[i..][1..] == lines[i + 1..];
    hide Joined;
    AppendAssociates(prefix, lines[i], Joined(lines[i + 1..]));
  }

  lemma AppendAssociates(a: string, b: string, c: string)
    ensures (a + b) + c == a + (b + c)
  {
  }

  lemma JoinedEnd()
    ensures Joined([]) == ""
  {
  }

  /** Names and architectures hold no colon or newline, versions no newline. */
  predicate CleanKey(k: InstalledKey) {
    && Lacks(k.name, ':') && Lacks(k.name, '\n')
    && Lacks(k.arch, ':') && Lacks(k.arch, '\n')
    && Lacks(k.version, '\n')
  }

  predicate CleanInstalled(installed: seq<InstalledPackage>) {
    forall k | k in FlatMap(KeysOf, installed) :: CleanKey(k)
  }

  /** Reads a line back; the result is a sequence for the sake of `FlatMap`. */
  function ParseKey(line: string): seq<InstalledKey> {
    if line == "" then []
    else
      var (name, rest) := CutColon(line[..|line| - 1]);
      var (arch, version) := CutColon(rest);
      [InstalledKey(name, arch, version)]
  }

  function CutColon(s: string): (string, string) {
    var i := IndexOf(s, ':');
    if i < |s| then (s[..i], s[i + 1..]) else (s, "")
  }

  lemma CutColonJoins(a: string, b: string)
    requires Lacks(a, ':')
    ensures CutColon(a + ":" + b) == (a, b)
  {
    var tail := ":" + b;
    IndexOfLacks(a, ':');
    IndexOfAppend(a, tail, ':');
    hide IndexOf;
    assert a + ":" + b == a + tail;
    assert IndexOf(tail, ':') == 0 by { IndexOfHead(b); }
    assert (a + tail)[|a| + 1..] == b;
  }

  lemma IndexOfHead(b: string)
    ensures IndexOf(":" + b, ':') == 0
  {
  }

  lemma KeyRoundTrip(k: InstalledKey)
    requires CleanKey(k)
    ensures ParseKey(FormatKey(k)) == [k]
  {
    hide CutColon, Lacks;
    var rest := k.arch + ":" + k.version;
    var body := k.name + ":" + rest;
    assert FormatKey(k) == body + "\n" && FormatKey(k)[..|body|] == body;
    CutColonJoins(k.name, rest);
    CutColonJoins(k.arch, k.version);
  }

  lemma FormattedIsLine(k: InstalledKey)
    requires CleanKey(k)
    ensures IsLine(FormatKey(k))
  {
    var s := FormatKey(k);
    assert s[..|s| - 1] == k.name + ":" + k.arch + ":" + k.version;
  }

  lemma {:induction false} LinesDetermineKeys(installed: seq<InstalledPackage>)
    requires CleanInstalled(installed)
    ensures FlatMap(ParseKey, FlatMap(LinesOf, installed)) == FlatMap(KeysOf, installed)
    ensures forall l | l in FlatMap(LinesOf, installed) :: IsLine(l)
  {
    if installed != [] {
      var init, pkg := installed[..|installed| - 1], installed[|installed| - 1];
      LinesDetermineKeys(init);
      FlatMapAppend(ParseKey, FlatMap(LinesOf, init), LinesOf(pkg));
      if IsInstalled(pkg.status) {
        var k := KeysOf(pkg)[0];
        assert k in FlatMap(KeysOf, installed);
        KeyRoundTrip(k);
        FormattedIsLine(k);
        assert [FormatKey(k)][..0] == [];
        assert FlatMap(ParseKey, LinesOf(pkg)) == [] + ParseKey(FormatKey(k));
      }
    }
  }

  /** Equal revision strings mean equal multisets of installed (name, architecture, version). */
  lemma InstalledRevisionIsInjective(a: seq<InstalledPackage>, b: seq<InstalledPackage>)
    requires CleanInstalled(a) && CleanInstalled(b)
    requires InstalledRevision(a) == InstalledRevision(b)
    ensures multiset(FlatMap(KeysOf, a)) == multiset(FlatMap(KeysOf, b))
  {
    var x, y := FlatMap(LinesOf, a), FlatMap(LinesOf, b);
    LinesDetermineKeys(a);
    LinesDetermineKeys(b);
    StringCmpIsTotal();
    SortSorts(StringCmp(), x);
    SortSorts(StringCmp(), y);
    forall l | l in Sort(StringCmp(), x) ensures IsLine(l) { assert l in multiset(x); }
    forall l | l in Sort(StringCmp(), y) ensures IsLine(l) { assert l in multiset(y); }
    JoinedIsInjective(Sort(StringCmp(), x), Sort(StringCmp(), y));
    FlatMapPermutation(ParseKey, x, y);
  }

  function FormatOneKey(k: InstalledKey): seq<string> {
    [FormatKey(k)]
  }

  lemma {:induction false} LinesAreOfKeys(installed: seq<InstalledPackage>)
    ensures FlatMap(LinesOf, installed) == FlatMap(FormatOneKey, FlatMap(KeysOf, installed))
  {
    if installed != [] {
      var init, pkg := installed[..|installed| - 1], installed[|installed| - 1];
      LinesAreOfKeys(init);
      FlatMapAppend(FormatOneKey, FlatMap(KeysOf, init), KeysOf(pkg));
      if IsInstalled(pkg.status) {
        FlatMapOne(FormatOneKey, KeysOf(pkg)[0]);
      }
    }
  }

  /** Nothing but the multiset of installed (name, architecture, version) enters the string. */
  lemma InstalledRevisionIsOfKeys(a: seq<InstalledPackage>, b: seq<InstalledPackage>)
    requires multiset(FlatMap(KeysOf, a)) == multiset(FlatMap(KeysOf, b))
    ensures InstalledRevision(a) == InstalledRevision(b)
  {
    hide FlatMap, Sort, Joined, KeysOf, LinesOf, FormatOneKey;
    LinesAreOfKeys(a);
    LinesAreOfKeys(b);
    FlatMapPermutation(FormatOneKey, FlatMap(KeysOf, a), FlatMap(KeysOf, b));
    StringCmpIsTotal();
    SortIgnoresOrder(StringCmp(), FlatMap(LinesOf, a), FlatMap(LinesOf, b));
  }

  /** Reordering the status database does not change the revision string. */
  lemma InstalledRevisionIgnoresOrder(a: seq<InstalledPackage>, b: seq<InstalledPackage>)
    requires multiset(a) == multiset(b)
    ensures InstalledRevision(a) == InstalledRevision(b)
  {
    FlatMapPermutation(KeysOf, a, b);
    InstalledRevisionIsOfKeys(a, b);
  }

  // ----- The filter is a function of the revision -----

  /** The filter in terms of the installed keys. */
  lemma {:induction false} FilterContents(installed: seq<InstalledPackage>, name: string)
    ensures var keys := FlatMap(KeysOf, installed);
            && (name in FilterOf(installed) <==> name != "" && exists k | k in keys :: k.name == name)
            && (name in FilterOf(installed) ==> forall arch :: arch in FilterOf(installed)[name] <==>
                  arch == "all" || exists k | k in keys :: k.name == name && k.arch == arch)
  {
    if installed != [] {
      FilterContents(installed[..|installed| - 1], name);
      var pkg := installed[|installed| - 1];
      var before, keys := FlatMap(KeysOf, installed[..|installed| - 1]), FlatMap(KeysOf, installed);
      assert forall k :: k in keys <==> k in before || k in KeysOf(pkg);
      if IsInstalled(pkg.status) {
        assert forall k :: k in KeysOf(pkg) <==> k == KeysOf(pkg)[0];
        assert KeysOf(pkg)[0] in keys;
      }
    }
  }

  /** Equal revision strings mean equal filters. */
  lemma EqualRevisionsEqualFilters(a: seq<InstalledPackage>, b: seq<InstalledPackage>)
    requires CleanInstalled(a) && CleanInstalled(b)
    requires InstalledRevision(a) == InstalledRevision(b)
    ensures FilterOf(a) == FilterOf(b)
  {
    InstalledRevisionIsInjective(a, b);
    var x, y := FlatMap(KeysOf, a), FlatMap(KeysOf, b);
    assert forall k :: k in x <==> k in multiset(x);
    assert forall k :: k in y <==> k in multiset(y);
    forall name ensures name in FilterOf(a) <==> name in FilterOf(b) {
      FilterContents(a, name);
      FilterContents(b, name);
    }
    forall name | name in FilterOf(a) ensures FilterOf(a)[name] == FilterOf(b)[name] {
      FilterContents(a, name);
      FilterContents(b, name);
    }
  }

  function OneInstalled(name: string, architecture: string, version: string): seq<InstalledPackage> {
    [InstalledPackage(name, architecture, version, ["install", "ok", "installed"])]
  }

  lemma RevisionOfOne(name: string, architecture: string, version: string)
    requires architecture != ""
    ensures InstalledRevision(OneInstalled(name, architecture, version)) == FormatKey(InstalledKey(name, architecture, version))
    ensures (name != "" ==> name in FilterOf(OneInstalled(name, architecture, version)))
            && forall n | n in FilterOf(OneInstalled(name, architecture, version)) :: n == name
  {
    var installed := OneInstalled(name, architecture, version);
    FlatMapOne(LinesOf, installed[0]);
    var line := FormatKey(InstalledKey(name, architecture, version));
    assert Sort(StringCmp(), [line]) == [line];
    assert Joined([line]) == line by { assert line + "" == line; }
    assert installed[..0] == [] && FilterOf([]) == map[];
  }

  /** Without the condition on colons the string is ambiguous: two different filters share it. */
  lemma ColonsMakeRevisionsCollide(x: string, y: string, z: string, version: string)
    requires x != "" && z != ""
    ensures var a, b := OneInstalled(x + ":" + y, z, version), OneInstalled(x, y + ":" + z, version);
            InstalledRevision(a) == InstalledRevision(b) && FilterOf(a) != FilterOf(b)
  {
    RevisionOfOne(x + ":" + y, z, version);
    RevisionOfOne(x, y + ":" + z, version);
    hide InstalledRevision, FilterOf, OneInstalled;
    assert x + ":" + y != x by { assert |x + ":" + y| > |x|; }
    assert (x + ":" + y) + ":" + z == x + ":" + (y + ":" + z);
  }
}
