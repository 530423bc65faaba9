/** Exactly when a cache hit is right: the runs in which it is stale, and that there are no others. */
module CacheLimits {
  import opened Text
  import opened Packages
  import opened Versions
  import opened PackageIndexes
  import opened ParserLaws
  import opened Deb822Texts
  import opened IndexTexts
  import opened Sorting
  import opened Revisions
  import opened IndexCache
  import opened CacheLaws

  // ----- A small index -----

  /** One stanza, for package "a" without architecture. */
  function SmallStanza(version: char): seq<Line> {
    [FieldLine("Package", " ", "a", ""), FieldLine("Version", " ", [version], "")]
  }

  function SmallIndex(version: char): string {
    Written([SmallStanza(version)])
  }

  lemma SmallStanzaIsPlain(version: char)
    requires '0' <= version <= '9'
    ensures IndexStanza(SmallStanza(version)) && AllPlain(SmallStanza(version))
    ensures ValueOf(SmallStanza(version), "Package") == "a" && ValueOf(SmallStanza(version), "Version") == [version]
    ensures ValueOf(SmallStanza(version), "Architecture") == ""
  {
    var ls := SmallStanza(version);
    LiteralsArePlain();
    assert PlainValue([version]);
    SpacedLine("Package", "a");
    SpacedLine("Version", [version]);
    hide PlainKey, PlainValue, PlainLine, LineText, PlainStanza, StartsSolid, EndsSolid, AllPlain, CountOf, ValueOf;
    TwoPlain(ls);
    TwoLines(ls, "Package");
    TwoLines(ls, "Version");
    TwoLines(ls, "Architecture");
  }

  lemma TwoPlain(ls: seq<Line>)
    requires |ls| == 2 && PlainLine(ls[0]) && PlainLine(ls[1])
    requires StartsSolid(LineText(ls[0])) && StartsSolid(LineText(ls[1]))
    ensures PlainStanza(ls) && AllPlain(ls)
  {
    hide PlainLine, LineText;
  }

  lemma TwoLines(ls: seq<Line>, key: string)
    requires |ls| == 2 && ls[0].FieldLine? && ls[1].FieldLine?
    ensures CountOf(ls, key) == (if ls[0].key == key then 1 else 0) + if ls[1].key == key then 1 else 0
    ensures ValueOf(ls, key) == if ls[0].key == key then ls[0].value else if ls[1].key == key then ls[1].value else ""
  {
    assert ls[1..] == [ls[1]] && [ls[1]][1..] == [];
    assert CountOf([], key) == 0 && ValueOf([], key) == "";
    assert CountOf([ls[1]], key) == if ls[1].key == key then 1 else 0;
  }

  lemma SmallIndexStreams(ctx: Context, version: char)
    requires '0' <= version <= '9' && Allows(ctx.filter, "a", "all")
    ensures Stream(ctx, SmallIndex(version), BLANK)
         == [AvailablePackage("a", "all", [version], ctx.security, ctx.priority, ctx.backports)]
  {
    var ls := SmallStanza(version);
    SmallStanzaIsPlain(version);
    hide IndexStanza, ValueOf, SmallStanza, Stream;
    ScannerReadsWritten(ctx, [ls]);
    assert [ls][1..] == [] && ExpectedAll(ctx, [ls]) == Expected(ctx, ls) + ExpectedAll(ctx, []);
    assert Expected(ctx, ls) + [] == Expected(ctx, ls);
  }

  function SmallFile(version: char): PackageIndex {
    PackageIndex("x_Packages", SmallIndex(version), 500, false)
  }

  const INSTALLED := [InstalledPackage("a", "", "1", ["install", "ok", "installed"])]

  lemma InstalledAllowsA()
    ensures FilterAllows(FilterOf(INSTALLED), "a", "all") && CleanInstalled(INSTALLED)
  {
    assert INSTALLED[..0] == [];
    assert FilterOf(INSTALLED[..0]) == map[];
    assert IsInstalled(INSTALLED[0].status);
    assert FlatMap(KeysOf, INSTALLED[..0]) == [];
    assert FlatMap(KeysOf, INSTALLED) == [InstalledKey("a", "all", "1")];
  }

  lemma SmallIndexIsShort(version: char)
    requires '0' <= version <= '9'
    ensures !HasLongLine(SmallIndex(version))
  {
    var ls := SmallStanza(version);
    SmallStanzaIsPlain(version);
    var first, second := LineText(ls[0]), LineText(ls[1]);
    AsciiByteLen(first);
    AsciiByteLen(second);
    assert |first| < MAX_LINE && |second| < MAX_LINE;
    assert ls[1..] == [ls[1]] && LinesText([ls[1]]) == second && SmallIndex(version) == first + ("\n" + second);
    hide LineText, ByteLen, FirstLine, AfterLine, SmallIndex;
    LineLines(ls[0], second);
    LineLines(ls[1], "");
    assert HasLongLine(first + ("\n" + second)) == HasLongLine(second);
    assert HasLongLine(second) == HasLongLine("");
  }

  lemma SmallSourceParses(ctx: Context, version: char)
    requires '0' <= version <= '9' && Allows(ctx.filter, "a", "all")
    ensures var r := ParseSource(ctx, Opens(Reader(SmallIndex(version), false), false));
            r.Ok? && |r.value| == 1 && r.value[0].version == [version]
  {
    SmallIndexStreams(ctx, version);
    SmallIndexIsShort(version);
    hide Stream, HasLongLine, SmallIndex;
  }

  lemma SingleStream(f: PackageIndex, filter: Option<Filter>)
    ensures var r := ParseSource(ContextOf(f.name, f.priority, f.backports, filter), AsStream(f).source);
            r.Ok? ==> ParseStreams(AsStreams([f]), filter) == r
  {
    hide ParseSource, ContextOf;
    var streams := AsStreams([f]);
    assert streams == [AsStream(f)] && streams[..0] == [];
    assert ParseStreams(streams[..0], filter) == Ok([]);
    var r := ParseSource(ContextOf(f.name, f.priority, f.backports, filter), AsStream(f).source);
    if r.Ok? { assert [] + r.value == r.value; }
  }

  lemma SmallFileParses(version: char)
    requires '0' <= version <= '9'
    ensures var r := ParseFor([SmallFile(version)], INSTALLED);
            r.Ok? && |r.value.available| == 1 && r.value.available[0].version == [version]
  {
    hide FilterOf, ParseSource, SmallIndex, ParseStreams, IsSecurityIndex, IsBackportsValue;
    var f := SmallFile(version);
    var filter := Some(FilterOf(INSTALLED));
    InstalledAllowsA();
    SmallSourceParses(ContextOf(f.name, f.priority, f.backports, filter), version);
    SingleStream(f, filter);
  }

  lemma TwoContents()
    ensures var early, later := ParseFor([SmallFile('2')], INSTALLED), ParseFor([SmallFile('3')], INSTALLED);
            early.Ok? && later.Ok? && early != later && later.value.available != [] && CleanInstalled(INSTALLED)
  {
    InstalledAllowsA();
    hide CleanInstalled, ParseFor, SmallFile;
    SmallFileParses('2');
    SmallFileParses('3');
  }

  // ----- A directory that keeps changing -----

  function Tag(k: nat): string {
    seq(k, _ => 'r')
  }

  /** The `k`-th directory: version 2 up to number `i`, version 3 from then on. */
  function WorldAt(i: nat, k: nat): World {
    World(Tag(k), [SmallFile(if k <= i then '2' else '3')])
  }

  function Worlds(i: nat, n: nat): seq<World> {
    seq(n, k requires 0 <= k < n => WorldAt(i, k))
  }

  ghost predicate Reachable(s: System) {
    exists states, steps :: IsRun(states, steps) && states[|steps|] == s
  }

  lemma ReachableStep(s: System, step: Step)
    requires Reachable(s) && Enabled(s, step)
    ensures Reachable(Apply(s, step))
  {
    hide Enabled, Apply, Initial;
    var states, steps :| IsRun(states, steps) && states[|steps|] == s;
    assert IsRun(states + [Apply(s, step)], steps + [step]);
  }

  lemma ReachableStart(s: System)
    requires Initial(s)
    ensures Reachable(s)
  {
    assert IsRun([s], []);
  }

  lemma ReachableChange(s: System, i: nat)
    requires Reachable(s) && |s.log| > 0 && s.log == Worlds(i, |s.log|)
    ensures Reachable(s.(log := Worlds(i, |s.log| + 1)))
  {
    hide Reachable, SmallFile, Hits;
    var w := WorldAt(i, |s.log|);
    assert forall v | v in s.log :: |v.revision| < |w.revision|;
    assert s.log + [w] == Worlds(i, |s.log| + 1);
    ReachableStep(s, Change(w));
  }

  lemma WorldsLength(i: nat, n: nat)
    ensures |Worlds(i, n)| == n
  {
  }

  /** The directory may change any number of times between two steps. */
  lemma {:induction false} ReachableChanges(s: System, i: nat, n: nat)
    requires Reachable(s) && |s.log| > 0 && s.log == Worlds(i, |s.log|) && |s.log| <= n
    ensures Reachable(s.(log := Worlds(i, n)))
    decreases n - |s.log|
  {
    hide Reachable, Worlds;
    if |s.log| == n {
      assert s.(log := Worlds(i, n)) == s;
    } else {
      var t := s.(log := Worlds(i, |s.log| + 1));
      ReachableChange(s, i);
      WorldsLength(i, |s.log| + 1);
      ReachableChanges(t, i, n);
      assert t.(log := Worlds(i, n)) == s.(log := Worlds(i, n));
    }
  }

  // ----- Two calls and a change between them -----

  function Waiting(i: nat): Call {
    Call(INSTALLED, Tag(i), i, Revised)
  }

  /** Both calls have read revision number `i`; `first` says how far the first one has got. */
  function Two(i: nat, n: nat, cache: Option<CacheEntry>, misses: nat, first: Phase): System {
    System(Worlds(i, n), cache, 0, misses, map[0 := Waiting(i).(phase := first), 1 := Waiting(i)])
  }

  lemma BothBegin(i: nat)
    requires CleanInstalled(INSTALLED)
    ensures Reachable(Two(i, i + 1, None, 1, Missed))
  {
    hide InstalledRevision, CleanInstalled, Reachable, SmallFile;
    var s := System(Worlds(i, 1), None, 0, 0, map[]);
    ReachableStart(s);
    ReachableChanges(s, i, i + 1);
    var t := System(Worlds(i, i + 1), None, 0, 0, map[]);
    assert t.log[Now(t)].revision == Tag(i) && Now(t) == i;
    hide Worlds, WorldAt, Tag, Hits;
    ReachableStep(t, Begin(0, INSTALLED));
    var t1 := System(t.log, None, 0, 0, map[0 := Waiting(i)]);
    assert Apply(t, Begin(0, INSTALLED)) == t1;
    ReachableStep(t1, Begin(1, INSTALLED));
    FirstChecks(i);
  }

  lemma FirstChecks(i: nat)
    requires Reachable(Two(i, i + 1, None, 0, Revised))
    ensures Reachable(Two(i, i + 1, None, 1, Missed))
  {
    hide InstalledRevision, Reachable, Worlds, Tag;
    WorldsLength(i, i + 1);
    var t := Two(i, i + 1, None, 0, Revised);
    ReachableStep(t, Check(0));
    assert Apply(t, Check(0)) == Two(i, i + 1, None, 1, Missed);
  }

  lemma FirstReads(i: nat, j: nat)
    requires i <= j && Reachable(Two(i, j + 1, None, 1, Missed))
    ensures var files := WorldAt(i, j).files;
            Reachable(Two(i, j + 1, None, 1, Reading(Headers(files), files, j)))
  {
    hide ParseFor, InstalledRevision, Reachable;
    var s, files := Two(i, j + 1, None, 1, Missed), WorldAt(i, j).files;
    var h := HeaderOf(files[0]);
    assert s.log[Now(s)].files == files && Headers(files) == [h] && Find(files, h.name) == 0;
    assert PackageIndex(h.name, files[0].data, h.priority, h.backports) == files[0] && Now(s) == j;
    hide Find, Headers, SmallFile, Worlds, WorldAt, Hits;
    ReachableStep(s, List(0));
    var t := Two(i, j + 1, None, 1, Reading([h], [], j));
    assert Apply(s, List(0)) == t;
    ReadsOne(t, i, j, files, h);
  }

  lemma {:induction false} ReadsOne(t: System, i: nat, j: nat, files: seq<PackageIndex>, h: Header)
    requires Reachable(t) && t == Two(i, j + 1, None, 1, Reading([h], [], j))
    requires |files| == 1 && h == HeaderOf(files[0])
    requires Now(t) == j && t.log[j].files == files && Find(files, h.name) == 0
    ensures Reachable(Two(i, j + 1, None, 1, Reading([h], files, j)))
  {
    hide Find, Headers, Worlds, WorldAt, Hits, Reachable, ParseFor, InstalledRevision;
    ReachableStep(t, Read(0));
    assert [] + files == files == [files[0]];
    assert Apply(t, Read(0)) == Two(i, j + 1, None, 1, Reading([h], files, j));
  }

  /** What the first call stores: read from directory `j` under the revision of directory `i`. */
  function EntryFrom(i: nat, j: nat, value: Outcome): CacheEntry {
    CacheEntry(value, Tag(i), InstalledRevision(INSTALLED), i, j, INSTALLED, WorldAt(i, j).files)
  }

  lemma SameHeaderCount(files: seq<PackageIndex>)
    ensures |Headers(files)| == |files|
  {
  }

  lemma FirstStores(i: nat, j: nat, value: Outcome)
    requires i <= j && CleanInstalled(INSTALLED) && ParseFor(WorldAt(i, j).files, INSTALLED) == Ok(value)
    ensures Reachable(Two(i, j + 1, Some(EntryFrom(i, j, value)), 1, Done(value, WorldAt(i, j).files, false)))
  {
    hide ParseFor, InstalledRevision, Reachable, CleanInstalled, WorldAt, Worlds, Tag, Headers;
    WorldsLength(i, i + 1);
    WorldsLength(i, j + 1);
    BothBegin(i);
    ReachableChanges(Two(i, i + 1, None, 1, Missed), i, j + 1);
    assert Two(i, i + 1, None, 1, Missed).(log := Worlds(i, j + 1)) == Two(i, j + 1, None, 1, Missed);
    FirstReads(i, j);
    var files := WorldAt(i, j).files;
    var s := Two(i, j + 1, None, 1, Reading(Headers(files), files, j));
    SameHeaderCount(files);
    assert Enabled(s, Store(0)) && Now(s) == j;
    ReachableStep(s, Store(0));
    assert Apply(s, Store(0)) == Two(i, j + 1, Some(EntryFrom(i, j, value)), 1, Done(value, files, false));
  }

  /** In state `s` the check of call `id` would hit an entry whose reader read its revision while
      directory number `from` was current and its last file when number `to` was. */
  ghost predicate HitsEntry(s: System, id: nat, from: nat, to: nat) {
    && Reachable(s) && Enabled(s, Check(id)) && Hits(s, s.calls[id])
    && s.cache.value.start == from && s.cache.value.looked == to
  }

  /** The second call hits, and returns the later version for the earlier revision. */
  lemma SecondHitIsStale(i: nat, j: nat) returns (s: System)
    requires i < j
    ensures HitsEntry(s, 1, i, j) && !HitIsExact(s, s.calls[1])
  {
    TwoContents();
    hide ParseFor, SmallFile, InstalledRevision, CleanInstalled;
    var value := ParseFor(WorldAt(i, j).files, INSTALLED).value;
    FirstStores(i, j, value);
    hide Reachable;
    s := Two(i, j + 1, Some(EntryFrom(i, j, value)), 1, Done(value, WorldAt(i, j).files, false));
    assert s.log[i].files == [SmallFile('2')];
  }

  lemma UntouchedHitIsExact(s: System, id: nat, i: nat)
    requires HitsEntry(s, id, i, i)
    ensures HitIsExact(s, s.calls[id])
  {
    hide Hits, HitIsExact, Inv;
    var states, steps :| IsRun(states, steps) && states[|steps|] == s;
    RunsKeepInv(states, steps, |steps|);
    HitStartsWithEntry(s, id);
    EarlierEntriesAreExact(s, s.calls[id]);
  }

  lemma HitStartsWithEntry(s: System, id: nat)
    requires Inv(s) && Enabled(s, Check(id)) && Hits(s, s.calls[id])
    ensures GoodCall(s.log, s.calls[id]) && s.cache.value.start == s.calls[id].start
  {
    hide ReadWithin, ParseFor, InstalledRevision, CleanInstalled, GoodPhase, Checked;
    RevisionFixesStart(s.log, s.cache.value.start, s.calls[id].start);
  }

  /** Whatever the calls and the directory do, hits on an entry are right if and only if the
      directory did not change between its reader's revision read and last file read. With a change
      in between, some run makes a second call hit contents newer than the revision it read. */
  lemma HitsAreExactExactly(i: nat, j: nat)
    requires i <= j
    ensures (forall s, id | HitsEntry(s, id, i, j) :: HitIsExact(s, s.calls[id])) <==> i == j
  {
    hide Reachable, Hits, HitIsExact;
    if i == j {
      forall s, id | HitsEntry(s, id, i, j) ensures HitIsExact(s, s.calls[id]) {
        UntouchedHitIsExact(s, id, i);
      }
    } else {
      var s := SecondHitIsStale(i, j);
    }
  }
}
