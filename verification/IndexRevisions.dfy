/** The revision string of the lists directory. */
module IndexRevisions {
  import opened Orders
  import opened Sorting
  import opened Text
  import opened PackageIndexes
  import opened Releases
  import opened Revisions
  import opened Decimals

  datatype DirEntry = DirEntry(name: string, isDir: bool, infoFails: bool, size: int, modTime: int)

  datatype FileRevision = FileRevision(name: string, size: int, modTime: int)

  // ----- The revision -----

  function FormatFile(f: FileRevision): string {
    f.name + ":" + FormatInt(f.size) + ":" + FormatInt(f.modTime) + "\n"
  }

  function FilesOf(e: DirEntry): seq<FileRevision> {
    if e.isDir || !IsRelevant(e.name) then [] else [FileRevision(e.name, e.size, e.modTime)]
  }

  /** The endings of the files that matter: package indexes, plain or compressed, and release files. */
  function RelevantEndings(): seq<string> {
    ["_Packages", "_Packages.bz", "_Packages.bz2", "_Packages.gz", "_Packages.lz4", "_Packages.xz", "_InRelease", "_Release"]
  }

  /** A file enters the revision exactly when its name has one of these endings. */
  lemma FilesAre(e: DirEntry)
    ensures FilesOf(e) == if !e.isDir && exists ending, stem | ending in RelevantEndings() :: e.name == stem + ending
                          then [FileRevision(e.name, e.size, e.modTime)] else []
  {
    forall ending ensures HasSuffix(e.name, ending) <==> exists stem :: e.name == stem + ending {
      if HasSuffix(e.name, ending) {
        assert e.name == e.name[..|e.name| - |ending|] + ending;
      }
    }
    hide HasSuffix;
    assert forall ending :: ending in RelevantEndings() <==> ending in INDEX_SUFFIXES || ending == "_InRelease" || ending == "_Release";
  }

  function FormatOne(f: FileRevision): seq<string> {
    [FormatFile(f)]
  }

  function ByName(): (FileRevision, FileRevision) -> int {
    (a: FileRevision, b: FileRevision) => StringOrder(a.name, b.name)
  }

  predicate Unreadable(e: DirEntry) {
    !e.isDir && IsRelevant(e.name) && e.infoFails
  }

  function Revision(entries: seq<DirEntry>): Result<string> {
    if exists e | e in entries :: Unreadable(e) then ReadError
    else Ok(Joined(FlatMap(FormatOne, Sort(ByName(), FlatMap(FilesOf, entries)))))
  }

  method PackageIndexRevision(entries: seq<DirEntry>) returns (revision: Result<string>)
    ensures revision == Revision(entries)
  {
    hide IsRelevant, FormatFile, Joined, Sort;
    var revisions: seq<FileRevision> := [];
    for i := 0 to |entries|
      invariant revisions == FlatMap(FilesOf, entries[..i])
      invariant forall e | e in entries[..i] :: !Unreadable(e)
    {
      assert entries[..i + 1][..i] == entries[..i];
      var entry := entries[i];
      if entry.isDir || !IsRelevant(entry.name) {
        continue;
      }
      if entry.infoFails {
        assert entry in entries && Unreadable(entry);
        return ReadError;
      }
      revisions := revisions + [FileRevision(entry.name, entry.size, entry.modTime)];
    }
    assert entries[..|entries|] == entries;
    revisions := Sort(ByName(), revisions);
    var formatted: seq<string> := [];
    for i := 0 to |revisions|
      invariant formatted == FlatMap(FormatOne, revisions[..i])
    {
      assert revisions[..i + 1][..i] == revisions[..i];
      formatted := formatted + [FormatFile(revisions[i])];
    }
    assert revisions[..|revisions|] == revisions;
    return Ok(Joined(formatted));
  }

  function ParseFile(line: string): seq<FileRevision> {
    if line == "" then []
    else
      var (rest, modTime) := CutLastColon(line[..|line| - 1]);
      var (name, size) := CutLastColon(rest);
      [FileRevision(name, ParseInt(size), ParseInt(modTime))]
  }

  function CutLastColon(s: string): (string, string) {
    var i := LastIndexOf(s, ':');
    if i >= 0 then (s[..i], s[i + 1..]) else (s, "")
  }

  lemma CutLastColonJoins(a: string, b: string)
    requires Lacks(b, ':')
    ensures CutLastColon(a + ":" + b) == (a, b)
  {
    var head := a + ":";
    LastIndexOfAppend(head, b, ':');
    assert LastIndexOf(head, ':') == |a|;
    hide LastIndexOf;
    assert (head + b)[..|a|] == a && (head + b)[|a| + 1..] == b;
  }

  /** A file's line can be read back even when its name contains colons. */
  lemma FileRoundTrip(f: FileRevision)
    ensures ParseFile(FormatFile(f)) == [f]
  {
    hide CutLastColon, FormatInt, ParseInt, Lacks;
    FormatIntRoundTrip(f.size);
    FormatIntRoundTrip(f.modTime);
    var rest := f.name + ":" + FormatInt(f.size);
    var body := rest + ":" + FormatInt(f.modTime);
    assert FormatFile(f) == body + "\n" && FormatFile(f)[..|body|] == body;
    CutLastColonJoins(rest, FormatInt(f.modTime));
    CutLastColonJoins(f.name, FormatInt(f.size));
  }

  lemma FormattedFileIsLine(f: FileRevision)
    requires Lacks(f.name, '\n')
    ensures IsLine(FormatFile(f))
  {
    FormatIntRoundTrip(f.size);
    FormatIntRoundTrip(f.modTime);
    hide FormatInt;
    var s := FormatFile(f);
    assert s[..|s| - 1] == f.name + ":" + FormatInt(f.size) + ":" + FormatInt(f.modTime);
  }

  lemma {:induction false} FileLinesDetermineFiles(files: seq<FileRevision>)
    requires forall f | f in files :: Lacks(f.name, '\n')
    ensures FlatMap(ParseFile, FlatMap(FormatOne, files)) == files
    ensures forall l | l in FlatMap(FormatOne, files) :: IsLine(l)
  {
    hide ParseFile, FormatFile, IsLine, Lacks;
    if files != [] {
      var init, f := files[..|files| - 1], files[|files| - 1];
      FileLinesDetermineFiles(init);
      FlatMapAppend(ParseFile, FlatMap(FormatOne, init), [FormatFile(f)]);
      FileRoundTrip(f);
      FormattedFileIsLine(f);
      assert [FormatFile(f)][..0] == [];
      assert FlatMap(ParseFile, [FormatFile(f)]) == [] + ParseFile(FormatFile(f));
      assert files == init + [f];
    }
  }

  lemma ByNameIsTotal()
    ensures TotalPreorder(ByName())
  {
    var cmp := ByName();
    forall x, y ensures -1 <= cmp(x, y) <= 1 && cmp(x, y) == -cmp(y, x) {
      StringOrderIsTotal(x.name, y.name, "");
    }
    forall x, y, z | cmp(x, y) <= 0 && cmp(y, z) <= 0 ensures cmp(x, z) <= 0 {
      StringOrderIsTotal(x.name, y.name, z.name);
    }
  }

  /** Equal revisions mean equal sets of relevant files with equal sizes and modification times,
      whatever colons the names contain. */
  lemma IndexRevisionIsInjective(a: seq<DirEntry>, b: seq<DirEntry>)
    requires forall e | e in a || e in b :: Lacks(e.name, '\n')
    requires Revision(a).Ok? && Revision(a) == Revision(b)
    ensures multiset(FlatMap(FilesOf, a)) == multiset(FlatMap(FilesOf, b))
  {
    SortedFilesAreClean(a);
    SortedFilesAreClean(b);
    var x, y := Sort(ByName(), FlatMap(FilesOf, a)), Sort(ByName(), FlatMap(FilesOf, b));
    FileLinesDetermineFiles(x);
    FileLinesDetermineFiles(y);
    JoinedIsInjective(FlatMap(FormatOne, x), FlatMap(FormatOne, y));
  }

  lemma SortedFilesAreClean(a: seq<DirEntry>)
    requires forall e | e in a :: Lacks(e.name, '\n')
    ensures var files := FlatMap(FilesOf, a);
            && multiset(Sort(ByName(), files)) == multiset(files)
            && forall f | f in Sort(ByName(), files) :: Lacks(f.name, '\n')
  {
    var files := FlatMap(FilesOf, a);
    ByNameIsTotal();
    SortSorts(ByName(), files);
    hide Sort, FlatMap, IsSorted, TotalPreorder;
    var sorted := Sort(ByName(), files);
    forall f | f in sorted ensures Lacks(f.name, '\n') {
      assert f in multiset(sorted) && f in multiset(files);
      FlatMapMembers(FilesOf, a, f);
    }
  }

  /** The revision fails exactly when one of the relevant files cannot be inspected. */
  lemma RevisionFails(a: seq<DirEntry>)
    ensures Revision(a).Ok? <==> forall e | e in a && FilesOf(e) != [] :: !e.infoFails
  {
    hide IsRelevant, FormatOne, Sort, FlatMap, Joined;
    assert forall e :: Unreadable(e) <==> FilesOf(e) != [] && e.infoFails;
  }

  /** Nothing but the relevant files with their sizes and times enters the revision. */
  lemma IndexRevisionIsOfFiles(a: seq<DirEntry>, b: seq<DirEntry>)
    requires Revision(a).Ok? && Revision(b).Ok?
    requires multiset(FlatMap(FilesOf, a)) == multiset(FlatMap(FilesOf, b))
    requires forall e, f | e in a && f in a :: e.name == f.name ==> e == f
    ensures Revision(a) == Revision(b)
  {
    hide FlatMap, Sort, Joined, FormatOne, FilesOf, Distinguishes, IsRelevant, ByName;
    ByNameIsTotal();
    NamesDistinguish(a);
    hide TotalPreorder;
    SortIgnoresOrder(ByName(), FlatMap(FilesOf, a), FlatMap(FilesOf, b));
  }

  /** The order in which the directory is enumerated does not matter. */
  lemma IndexRevisionIgnoresOrder(a: seq<DirEntry>, b: seq<DirEntry>)
    requires multiset(a) == multiset(b)
    requires forall e, f | e in a && f in a :: e.name == f.name ==> e == f
    ensures Revision(a) == Revision(b)
  {
    hide FlatMap, Sort, Joined, FormatOne, FilesOf, IsRelevant;
    assert forall e :: e in a <==> e in multiset(a);
    assert forall e :: e in b <==> e in multiset(b);
    FlatMapPermutation(FilesOf, a, b);
    RevisionFails(a);
    RevisionFails(b);
    if Revision(a).Ok? {
      IndexRevisionIsOfFiles(a, b);
    }
  }

  lemma NamesDistinguish(a: seq<DirEntry>)
    requires forall e, f | e in a && f in a :: e.name == f.name ==> e == f
    ensures Distinguishes(ByName(), FlatMap(FilesOf, a))
  {
    hide FlatMap, StringOrder;
    var files := FlatMap(FilesOf, a);
    forall x, y | x in files && y in files && ByName()(x, y) == 0 ensures x == y {
      FlatMapMembers(FilesOf, a, x);
      FlatMapMembers(FilesOf, a, y);
      StringOrderTieIsEquality(x.name, y.name);
    }
  }
}
