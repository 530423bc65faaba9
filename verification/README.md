# Verified model of the Debian package exporter

The exporter reads a host's dpkg status database and apt package indexes, compares Debian versions,
decides with apt-like priorities which installed packages have updates, and exports the counts as
metrics. This project models that logic in Dafny and proves what its documentation and its callers
rely on. Verify with `dafny verify dfyconfig.toml`.

Code that works step by step is modelled by methods with loops, or by classes whose methods update
fields in place (`Collection.Collector`, `Snapshots.ObservedSnapshotter`,
`Histograms.FeatureMetricState` with its shared `Histograms.Buckets`). Each method is tied to a
specification function, and the laws are proved of that function.

## The modules

- `Orders`, `Text`, `Whitespace`, `Sorting`, `Decimals`: three-way orders, string operations, sorting
  and decimal numbers.
- `Versions`, `VersionLaws`: Debian version comparison, section 5.6.12 of the Debian Policy Manual.
- `Packages`, `Policy`, `Counting`, `CountingLaws`, `UpdateMeanings`: candidate selection and the update
  counts.
- `PackageIndexes`, `EarlyExits`, `ParserLaws`, `FilterLaws`, `Deb822Texts`, `IndexTexts`,
  `StatusDatabases`, `CleanTexts`: the parsers, and what they read back from written files.
- `Revisions`, `IndexRevisions`, `Releases`, `ReleaseTexts`: cache keys and release metadata.
- `IndexCache`, `CacheLaws`, `CacheLimits`: the collector's cache under interleaved calls.
- `Collection`, `CollectionLaws`, `CachingLaws`, `RefreshLaws`: one refresh, and sequential runs of
  refreshes.
- `Snapshots`, `Histograms`: replay of the last good snapshot, exported totals, duration histograms.

## Main results

- The version comparison is a total preorder on all strings, with ties interchangeable. Where digits
  are ASCII, comparing parts is the zero-padded lexicographic order of (non-digit run, number) pairs,
  with numbers of any size. Of two assembled versions the epochs decide first, then the upstream
  versions, then the revisions (`VersionLaws.AssembledOrder`). Versions tie exactly when their canonical forms coincide, and `~` and `+`
  suffixes sort before and after wherever they are appended.
- Selection returns the first unbeaten contender. Counts do not depend on the order of the indexes,
  equal a naive scan, and lose no newer version. `UpdateMeanings.CountsMean` says what each of the five
  counts is a count of, without the selection algorithm.
- Among tidy indexes, the two index parsers agree under every filter exactly on those whose paragraphs
  read alike, which a single scan decides. They read back what is written, with any white space
  around values and any other lines, and filtering changes no count. Status databases and release files
  are read back in the same sense.
- Both cache-key strings are injective on what the cached value depends on, when installed names and
  architectures hold no colon or newline, versions no newline, and file names no newline. Otherwise
  different keys can share a string (`Revisions.ColonsMakeRevisionsCollide`). The cache invariant holds
  after every step of every interleaving.
- A refresh with a cache reports what a refresh without one reports, unless it hits while the
  indexes cannot be read, and exactly then not. Through cache, filter, parser and grouping index the
  reported counts are those of a direct scan of the indexes. What is cached after a run is the outcome
  of its last successful lookup at a revision, and a refresh hits exactly when that lookup fits it
  (`CachingLaws.HitsExactly`). Errors, health flags, inventory and stages of a refresh follow from what
  it was answered (`RefreshLaws`).
- Error and lookup counters are conserved over runs, exported totals never decrease, and histograms
  summarise exactly the counted scrapes. These show every attempt scraped, and each of them once exactly
  when no other attempt is scraped in between.

## Where the code does not do what one may expect

- **Cache hits of overlapping calls.** `availablePackages` stores what it has read under a revision
  read earlier. If the directory changes in between, a second call that read the old revision hits
  the new contents. `CacheLimits.HitsAreExactExactly` gives the exact condition: hits on an entry are
  right whatever happens if and only if the directory did not change between the revision read and
  the last file read of the call that stored the entry. They are therefore right when calls do not
  overlap (`CacheLaws.SequentialHitsAreExact`) and whenever the call's revision is still current
  (`CacheLaws.HitWhileCurrentIsExact`). Freshness file by file holds always
  (`CacheLaws.CompletedCallsAreFresh`).
- **Pinned updates.** ARCHITECTURE.md and METRICS.md call them newer versions. With a priority of
  1000 or more that outranks another priority in use, an older version can be counted.
  `CountingLaws.PinnedMeansNewerExactly` shows that this is the only way. The lists directory never
  yields such priorities (`Releases.PrioritiesAreModest`, `CountingLaws.PinnedIsNewer`).
- **The exported validity flag.** METRICS.md says it is 1 exactly when both sources are usable. A
  failed refresh replays the old flag beside the current source health, so from the first success on
  the two can disagree (`Snapshots.FlagAgreesUntilFirstSuccess`).
- **Scrapes out of order.** METRICS.md says that only new refreshes are observed, but only the last
  observed attempt is remembered. Of two overlapping scrapes the one with the older snapshot can be
  counted last; the newer attempt is then counted again at the next scrape
  (`Histograms.ReturningAttemptIsCountedTwice`). `Histograms.EachAttemptOnceExactly` shows that this is
  the only way: each attempt is counted once if and only if no scrape of another attempt comes between
  two scrapes of the same one, as when attempt times never go back (`Histograms.EachAttemptOnce`).
- **Repeated fields.** The line scanner keeps the last value of a repeated field and the paragraph
  parser the first complete set (`IndexTexts.RepeatedFieldsSplitTheParsers`). On one paragraph they
  agree under every filter if and only if it reads alike (`EarlyExits.StanzasAgreeExactly`): up to the
  line where all three fields are known, every name is the last one, every architecture after a name
  is the last one up to "all", and the entry then known is the last one. `ParserLaws.ParsersAgreeExactly`
  lifts this to whole indexes. Unique fields, as section 5.1 of the Debian Policy Manual requires them,
  suffice (`ParserLaws.UniqueFieldsReadAlike`). The same scan decides exactly when the filter of the
  paragraph parser loses nothing (`FilterLaws.ParagraphsFilterExactly`).
- **Hits while the indexes are unreadable.** A hit needs only the revision, so it reports no error
  when the indexes themselves cannot be read. `CollectionLaws.CacheIsTransparent` shows that this is
  the only difference a cache makes, and `CollectionLaws.HitCountsAreOfRevision` that the counts are
  still those of the revision.

## Model

| member | source | states |
|---|---|---|
| Orders.TiesAreInterchangeable | internal/apt/parser.go:586-600 | with `VersionOrderIsTotal`: versions that compare equal can replace each other on either side of any comparison |
| Versions.TakeWhile | internal/apt/parser.go:639-648 | returns the longest prefix of characters satisfying the predicate, and what follows it |
| Versions.SpanIsMaximal | internal/apt/parser.go:639-648 | the prefix is the longest: any position all characters before which satisfy the predicate, and which does not itself, is where the cut is |
| Versions.CompareNonDigit | internal/apt/parser.go:650-666 | the loop computes the lexicographic order of the character keys, continued with the key of the end of text |
| Versions.CompareDigitIsNumeric | internal/apt/parser.go:668-684 | digit runs of any length compare as the unbounded natural numbers they denote |
| Versions.CompareDigitIsTotal | internal/apt/parser.go:668-684 | comparison of digit runs is a total preorder whose ties are equality up to leading zeros |
| Versions.NonDigitRunOrderIsTotal | internal/apt/parser.go:650-666 | comparison of non-digit runs is a total preorder |
| Versions.CompareVersionPart | internal/apt/parser.go:619-637 | the alternating loop terminates and computes the lexicographic order of blocks, continued with empty blocks |
| Versions.PartOrderIsTotal | internal/apt/parser.go:619-637 | comparison of version parts is antisymmetric, transitive and total |
| Versions.CompareSplits | internal/apt/parser.go:589-599 | the method computes the reference order of split versions, which `VersionLaws.AssembledOrder` describes |
| Versions.CompareVersions | internal/apt/parser.go:586-600 | the method computes the reference order of the two whole versions |
| Versions.VersionOrderIsTotal | internal/apt/parser.go:586-706 | version comparison is a total preorder on all strings, whatever the Unicode tables |
| VersionLaws.PartOrderIsNumbered | internal/apt/parser.go:619-684 | where digits are ASCII, comparing parts is the lexicographic order of (non-digit run, natural number) pairs, continued with empty runs and zeros |
| VersionLaws.SplitRoundTrip | internal/apt/parser.go:602-617 | splitting an assembled version returns its epoch (0 if missing), upstream version and revision (0 if missing), cutting at the first colon and the last hyphen |
| VersionLaws.AssembledOrder | internal/apt/parser.go:586-617 | of two versions assembled from epoch, upstream version and revision the epochs decide first, smaller before larger, then the upstream versions, then the revisions; a missing epoch or revision counts as 0 |
| VersionLaws.EpochIsNumber | internal/apt/parser.go:602-609 | digits before the first colon, with or without a sign, are the epoch if the number fits 64 bits, else the epoch is 0; they are cut off in both cases |
| VersionLaws.EpochIsNoNumber | internal/apt/parser.go:602-609 | anything else before the first colon is cut off and gives epoch 0 |
| VersionLaws.FirstBlockIs | internal/apt/parser.go:619-648 | the first block of a part is its longest run without digits and the longest run of digits after it |
| VersionLaws.CharactersAreOrdered | internal/apt/parser.go:696-706 | among ASCII characters `~` sorts before the end of a run, the end before letters, letters before the rest, and codes decide within a class |
| VersionLaws.OtherCharactersAreOrdered | internal/apt/parser.go:696-706 | beyond ASCII, codes decide among letters and among other characters; a letter follows another character only if its code is higher by more than 256 |
| VersionLaws.PartsTie | internal/apt/parser.go:619-706 | ASCII parts without NUL tie if and only if they coincide after dropping leading zeros of numbers and trailing empty blocks |
| VersionLaws.VersionsTie | internal/apt/parser.go:586-706 | ASCII versions without NUL tie if and only if their epochs and the canonical forms of both parts coincide |
| VersionLaws.DigitRunsCompareAsNumbers | internal/apt/parser.go:619-684 | after a common prefix two digit runs compare as numbers, and only equal numbers let the remaining text decide |
| VersionLaws.AppendToPart | internal/apt/parser.go:619-666 | text appended to a part moves it to the side its first character names, whether the part ends in a digit or a non-digit run |
| VersionLaws.SuffixOrder | internal/apt/parser.go:586-706 | `v~s` sorts strictly before `v` and `v+s` strictly after it, for every version `v` and every suffix without colon and hyphen |
| Policy.CandidateOrderIsTotal | internal/apt/parser.go:436-445 | priority, then version, is a total preorder on candidates |
| Policy.BestPolicyCandidate | internal/apt/parser.go:413-434 | the loop computes the selected candidate that the laws below describe |
| Policy.SelectedIsFirstMaximum | internal/apt/parser.go:413-445 | the selected candidate is the first contender (the installed version at priority 100, then the eligible candidates) that no other contender beats |
| Policy.SelectedSecurity | internal/apt/parser.go:413-434 | the selected candidate carries the security flag if and only if some candidate tied with it does |
| Policy.TiedIsEligible | internal/apt/parser.go:413-434 | a candidate tied with the selected one was never filtered out as a downgrade |
| Policy.SelectionIgnoresOrder | internal/apt/parser.go:413-434 | reordering or repeating candidates changes neither the selected priority, nor the version up to ties, nor the security flag |
| Counting.AvailableByPackageKey | internal/apt/parser.go:341-348 | the index files every package under its name and architecture, and nothing else, in the original order |
| Counting.BestUpgradeCandidate | internal/apt/parser.go:401-411 | yields the selected candidate exactly when the package is not held and the selection is newer than the installed version |
| Counting.HasPinnedUpdate | internal/apt/parser.go:363-384 | answers whether some non-backports candidate exceeds the selected version, or the installed one for held packages |
| Counting.HasBackportsUpdate | internal/apt/parser.go:386-399 | answers whether some backports candidate exceeds the installed version |
| Counting.CountUpgradableByKey | internal/apt/parser.go:283-305 | counts the packages that a scan of the whole list, without the index, finds upgradable |
| Counting.CountPinnedUpdatesByKey | internal/apt/parser.go:311-322 | counts the packages that a scan of the whole list finds pinned |
| Counting.CountBackportsUpdatesByKey | internal/apt/parser.go:328-339 | counts the packages that a scan of the whole list finds with a backports update |
| Counting.CountAll | internal/apt/service.go:130-139 | the five reported counts are the five naive scans |
| CountingLaws.CandidatesAre | internal/apt/parser.go:350-356 | a package's candidates are those of its own architecture or, only if there are none, those for "all" |
| CountingLaws.CountsIgnoreOrder | internal/apt/parser.go:279-356 | reordering or repeating entries of the indexes changes none of the five counts |
| CountingLaws.CountsIgnorePermutation | internal/apt/parser.go:279-356 | any permutation of the package list gives the same five counts |
| CountingLaws.NewerIsCounted | internal/apt/parser.go:363-434 | a candidate newer than the installed version is counted: as a backport, or as pinned if held, or as upgradable or pinned |
| CountingLaws.CountsCoverNewer | internal/apt/parser.go:283-339 | upgradable, pinned and backports counts add up to at least the number of packages with a newer candidate |
| CountingLaws.DowngradesAreForced | internal/apt/parser.go:401-434 | the selected version is below the installed one only at priority 1000 or more, and is then not an upgrade |
| CountingLaws.PinnedHasLowerPriority | internal/apt/parser.go:363-434 | a pinned candidate of a package that is not held has strictly lower priority than the selected one |
| CountingLaws.PinnedIsNewerOrForced | internal/apt/parser.go:363-434 | a pinned package has a newer non-backports candidate, unless a forced-downgrade priority outranks another candidate |
| CountingLaws.PinnedIsNewer | METRICS.md:80-90 | below priority 1000 a pinned package always has a newer non-backports candidate, as documented |
| CountingLaws.ForcedDowngradeIsPinned | internal/apt/parser.go:363-434 | for every installed version `v`, `v~~` at a forced priority and `v~` at a lower one are counted as pinned although neither is newer |
| CountingLaws.PinnedMeansNewerExactly | ARCHITECTURE.md:54-55 | with given archive priorities, pinned always means newer if and only if no priority of 1000 or more exceeds another one in use |
| UpdateMeanings.SelectedIsChoice | internal/apt/parser.go:401-445 | the selected version is the installed one at priority 100 or a considered offer, and neither the installed version nor any considered offer outranks it; offers below the installed version are considered from priority 1000 on |
| UpdateMeanings.UpgradableMeans | internal/apt/parser.go:283-305 | a package is upgradable if and only if it is installed, not held, has a version, and some choice of the policy is newer; for the security count a security archive offers the same version at the same priority |
| UpdateMeanings.PinnedMeans | internal/apt/parser.go:307-384 | a package is pinned if and only if it is installed, has a version, and some offer that is no backport exceeds the choice, or the installed version if that is the choice or the package is held; for the security count this offer is itself a security one |
| UpdateMeanings.BackportsMeans | internal/apt/parser.go:324-399 | a package has a backports update if and only if it is installed, has a version, and a newer backport is offered |
| UpdateMeanings.CountsMean | internal/apt/parser.go:279-472 | each of the five counts is the number of installed packages with its meaning, whose definitions name no part of the selection |
| PackageIndexes.InstalledPackageFilter | internal/apt/parser.go:255-277 | the loop builds the filter of the installed packages, whose contents `Revisions.FilterContents` states |
| PackageIndexes.ParseAvailablePackageReader | internal/apt/parser.go:181-240 | the line scanner emits one package per flushed paragraph, or fails when reading fails or a line exceeds 4 MiB |
| PackageIndexes.ParseAvailablePackageFields | internal/apt/parser.go:503-549 | the loop reads one paragraph, giving up at the first rejected field and stopping once all three fields are known |
| PackageIndexes.ParseIndexBytes | internal/apt/parser.go:142-153 | cutting the buffer at blank lines emits the paragraphs' packages in order |
| PackageIndexes.ParseAvailablePackages | internal/apt/parser.go:136-156 | the packages of all buffers, each with its index's priority, security and backports flags |
| PackageIndexes.ParseAvailablePackagesFromStreams | internal/apt/parser.go:158-175 | the packages of all streams, or the error of the first stream that fails to open, parse or close |
| PackageIndexes.FirstFailureDecides | internal/apt/parser.go:160-173 | the first failing stream decides the result whatever comes after it |
| EarlyExits.CutsExactly | internal/apt/parser.go:503-561 | under every filter the paragraph parser yields what a given entry yields, if and only if one filter-free scan of the paragraph is steady for that entry |
| EarlyExits.StanzasAgreeExactly | internal/apt/parser.go:181-253 | on one paragraph, whatever its fields and keys, the two parsers agree under every filter if and only if it reads alike |
| EarlyExits.FilteringCutsExactly | internal/apt/parser.go:523-536 | early rejection in one paragraph is filtering afterwards, under every filter, if and only if it filters alike |
| EarlyExits.UniqueFieldsFilterAlike | internal/apt/parser.go:503-561 | paragraphs without repeated fields filter alike, whatever their keys |
| EarlyExits.EarlyExitsAreSound | internal/apt/parser.go:503-561 | on a paragraph without repeated fields, early rejection and early exit change nothing the paragraph contributes |
| ParserLaws.StreamStanza | internal/apt/parser.go:196-240 | the scanner reads a stanza to its end and emits exactly its package at the blank line or the end of input |
| ParserLaws.UniqueFieldsReadAlike | internal/apt/parser.go:503-549 | paragraphs without repeated fields and with plain keys read alike |
| ParserLaws.ParsersAgree | internal/apt/parser.go:136-253 | on every index whose paragraphs read alike, and under every filter, both parsers produce the same packages in the same order |
| ParserLaws.ParsersAgreeExactly | internal/apt/parser.go:136-253 | on a tidy index both parsers agree under every filter if and only if every paragraph reads alike |
| ParserLaws.IndexSetsAgree | internal/apt/parser.go:136-175 | a set of well-formed indexes without overlong lines gives the same list read as streams or as buffers |
| ParserLaws.IndexSetsAgreeExactly | internal/apt/parser.go:136-175 | tidy indexes give the same list read as streams or as buffers, under every filter, if and only if no line is overlong and every paragraph reads alike |
| Deb822Texts.LongLinesAre | internal/apt/parser.go:210-212 | a text holds an overlong line if and only if one of its lines has 4 MiB or more |
| Deb822Texts.StanzaIsRead | internal/apt/parser.go:213-236 | reading a stanza, with any white space around values and any other lines, yields the values of its three fields |
| IndexTexts.WrittenIsWellFormed | internal/apt/parser.go:486-549 | a written index, whatever white space follows, is well formed, so the agreement applies to it, and trimming it leaves what was written |
| IndexTexts.ParsersReadBack | internal/apt/parser.go:181-253 | both parsers return exactly the written packages that the filter allows, in order, with their own fields, whatever white space surrounds the values or ends the file, and whatever other fields and lines the stanzas hold |
| IndexTexts.IndexReadsBack | internal/apt/parser.go:136-156 | reading back a written index also gives its packages the right marks: the index name tells security, the name or the release tells backports, and a missing priority is 500 |
| IndexTexts.ContainsFoldMeans | internal/apt/parser.go:474-476 | a name is taken for a security or backports one if and only if the word occurs in it in any case |
| IndexTexts.CarriageReturnEndsStanza | internal/apt/parser.go:210-217 | the scanner also ends a stanza at a line of a lone carriage return |
| IndexTexts.RepeatedFieldsSplitTheParsers | internal/apt/parser.go:537-542 | the parsers agree on a stanza that gives two versions if and only if the two are the same |
| FilterLaws.StreamFilters | internal/apt/parser.go:242-253 | on every input, scanning with a filter yields the filtered result of scanning without |
| FilterLaws.ParagraphsFilter | internal/apt/parser.go:503-561 | the same of the paragraph parser when every paragraph filters alike |
| FilterLaws.ParagraphsFilterExactly | internal/apt/parser.go:503-561 | on every buffer, cutting with the filter is filtering the cut, under every filter, if and only if every paragraph filters alike |
| FilterLaws.FilterKeepsCandidates | internal/apt/parser.go:350-356 | an installed package finds the same candidates in the filtered and the unfiltered list, also without architecture and when falling back to "all" |
| FilterLaws.StreamFilterIsTransparent | internal/apt/parser.go:132-134 | filtering the streams changes neither success nor any of the five counts |
| FilterLaws.BytesFilterIsTransparent | internal/apt/parser.go:128-130 | filtering the buffers changes none of the five counts when every paragraph filters alike |
| StatusDatabases.ParseDeb822Fields | internal/apt/parser.go:563-584 | the loop builds the map of all fields, continuation lines included |
| StatusDatabases.ParseInstalledPackages | internal/apt/parser.go:98-114 | the named records of the paragraphs, in order |
| StatusDatabases.ParseInstalledPackagesStrict | internal/apt/parser.go:116-122 | fails exactly when text that is not blank holds no record |
| StatusDatabases.FieldMapAgrees | internal/apt/parser.go:503-584 | on name, architecture and version the status parser reads what the index parsers read, unless one of these fields is continued |
| StatusDatabases.StanzaSays | internal/apt/parser.go:563-584 | the map gives each field that a stanza holds at most once its whole value, continuation lines included, and nothing for a field it does not hold |
| StatusDatabases.WordsOfSpaced | internal/apt/parser.go:98-107 | the words of a status are the words written, whatever white space separates them |
| CleanTexts.CleanTextIsClean | internal/apt/parser.go:98-122 | if package, architecture and version are never continued and the first two hold no colon, the records parsed from the text keep the cache key unambiguous |
| StatusDatabases.StatusReadBack | internal/apt/parser.go:98-122 | reading back a written status database yields exactly its named records, in order, with their whole values and all status words, and fails if and only if no stanza of a nonempty database has a name |
| Sorting.SortSorts | internal/apt/service.go:302 | the sort used in the model orders its input and keeps its multiset |
| Sorting.SortedIsUnique | internal/apt/source.go:215-217 | any two sorted arrangements of distinguishable elements are equal, so every correct sort gives the same revision string |
| Revisions.InstalledPackageRevision | internal/apt/service.go:289-307 | the method computes the sorted, joined lines of the installed packages |
| Revisions.KeysAre | internal/apt/service.go:292-300 | a package has a key if and only if it is wanted and installed, and the key is its name, its architecture or "all", and its version |
| Revisions.KeyRoundTrip | internal/apt/service.go:300 | a line determines name, architecture and version when names and architectures hold no colon |
| Revisions.JoinedIsInjective | internal/apt/service.go:303-306 | the joined text determines its lines |
| Revisions.InstalledRevisionIsInjective | internal/apt/service.go:289-307 | for names and architectures without colon and newline, and versions without newline, equal revision strings mean equal multisets of installed (name, architecture or "all", version) |
| Revisions.InstalledRevisionIsOfKeys | internal/apt/service.go:289-307 | nothing but the multiset of installed (name, architecture or "all", version) enters the string |
| Revisions.InstalledRevisionIgnoresOrder | internal/apt/service.go:302 | reordering the status database does not change the string |
| Revisions.FilterContents | internal/apt/parser.go:255-277 | the filter holds a name exactly when an installed package has it, with its architectures and "all" |
| Revisions.EqualRevisionsEqualFilters | internal/apt/service.go:195-197 | under the same condition equal revision strings mean equal filters, so the cached list fits |
| Revisions.ColonsMakeRevisionsCollide | internal/apt/service.go:300 | without the condition on colons, two installed lists with different filters share their string |
| IndexRevisions.PackageIndexRevision | internal/apt/source.go:177-223 | the method computes the sorted, joined lines of the relevant files, or fails if one of them cannot be inspected |
| IndexRevisions.FilesAre | internal/apt/source.go:194-213 | a file enters the revision if and only if it is no directory and its name has one of the endings of index and release files |
| IndexRevisions.RevisionFails | internal/apt/source.go:194-206 | the revision fails if and only if a relevant file cannot be inspected |
| IndexRevisions.FileRoundTrip | internal/apt/source.go:220 | a line determines name, size and time even when the name contains colons |
| IndexRevisions.IndexRevisionIsInjective | internal/apt/source.go:188-222 | for file names without newline, equal revisions mean equal multisets of relevant files with their sizes and times |
| IndexRevisions.IndexRevisionIsOfFiles | internal/apt/source.go:188-222 | nothing but the multiset of relevant files with their sizes and times enters the revision |
| IndexRevisions.IndexRevisionIgnoresOrder | internal/apt/source.go:194-217 | the order in which the directory is enumerated does not matter |
| Decimals.FormatIntRoundTrip | internal/apt/source.go:220 | a formatted number determines its value and holds neither colon nor newline |
| Releases.ReadReleaseMetadata | internal/apt/source.go:313-337 | the map holds, for exactly the prefixes of readable release files, what the last such file says; unreadable ones are skipped and reported |
| Releases.ReleaseMapIsUnique | internal/apt/source.go:313-337 | the directory determines that map |
| Releases.PackageIndexMetadata | internal/apt/source.go:348-365 | whatever order the map yields, the result is the entry of the longest applicable non-empty prefix, or the default |
| Releases.MetadataIsUnique | internal/apt/source.go:348-365 | only one result satisfies that description, so the iteration order does not matter |
| Releases.PrioritiesAreModest | internal/apt/source.go:313-375 | whatever the release files say, every index gets priority 1, 100 or 500, never a forced-downgrade one |
| ReleaseTexts.ReleaseFileMeans | internal/apt/source.go:313-389 | for a written release file that is the last one read with its prefix: priority 500 unless NotAutomatic is yes, then 100 if ButAutomaticUpgrades is yes too, else 1; backports if and only if the prefix, Archive, Suite, Codename or Label says so |
| ReleaseTexts.ReleasesAreTold | internal/apt/source.go:313-337 | the map holds a prefix if and only if some readable release file has it |
| ReleaseTexts.IndexBelongsToRelease | internal/apt/source.go:348-365 | an index file belongs to the release with the longest prefix separated by an underscore; without one it has priority 500 and its name tells backports |
| IndexCache.StepKeepsInv | internal/apt/service.go:186-226 | every step of any call, and every change of the directory, keeps the cache invariant |
| IndexCache.RunsKeepInv | internal/apt/service.go:186-226 | the invariant holds after every prefix of every interleaving |
| IndexCache.SameRevisionSameParse | internal/apt/service.go:195-203 | packages with the same installed revision parse the same files alike |
| CacheLaws.CompletedCallsAreFresh | internal/apt/service.go:186-226 | every completed call, hit or miss, returns the parse, for its own packages, of files the directory listed and held during the call |
| CacheLaws.HitsAndMissesCountCalls | internal/apt/service.go:193-210 | hits and misses together count the calls past the revision step |
| CacheLaws.HitsCountSpared | internal/apt/service.go:193-210 | hits count the calls that completed without reading a file, under any interleaving |
| CacheLaws.StoredIsFound | internal/apt/service.go:193-224 | a lookup that follows a store, with no other store in between, completes with the stored value if and only if that is not empty and both calls read the same revision for equally identified packages |
| CacheLaws.EarlierEntriesAreExact | internal/apt/service.go:193-203 | a hit on an entry whose files were read before the call's revision read returns the parse of the directory at that read |
| CacheLaws.HitWhileCurrentIsExact | internal/apt/service.go:193-203 | so does every hit while the call's revision is still current, under any interleaving |
| CacheLaws.SequentialHitsAreExact | internal/apt/service.go:186-226 | so does every hit when calls do not overlap, however the directory changes |
| CacheLimits.SecondHitIsStale | internal/apt/service.go:212-224 | with any change between the revision read and the last file read behind an entry, some run makes a hit return newer contents than those of its revision |
| CacheLimits.HitsAreExactExactly | internal/apt/service.go:186-226 | hits on an entry are always exact if and only if the directory did not change between the revision read and the last file read behind it |
| Collection.Collector.constructor | internal/apt/service.go:56-64 | a new collector caches nothing and has counted nothing |
| Collection.Collector.ReadAvailablePackages | internal/apt/service.go:228-255 | streams are preferred to buffers, both filtered by the installed packages; validity means at least one index |
| Collection.Collector.AvailablePackages | internal/apt/service.go:186-226 | the new fields and the result are those of the cache specification (hit, miss, uncacheable or failed), whose effect `CachingLaws` describes over runs |
| Collection.Collector.CollectUpdates | internal/apt/service.go:93-139 | a refresh with status records, for every outcome of the indexes |
| Collection.Collector.CollectWithoutStatus | internal/apt/service.go:78-128 | a refresh without status records still probes the indexes and counts their error |
| Collection.Collector.Collect | internal/apt/service.go:70-154 | one refresh: new fields, statistics and joined errors, as the laws below describe them |
| CollectionLaws.ErrorKindsAreConserved | internal/apt/service.go:156-184 | over any run each error counter equals the number of joined errors of its kinds |
| CollectionLaws.ErrorsAreConserved | internal/apt/service.go:70-184 | over any run the four error counters add up to the number of joined errors |
| CollectionLaws.LookupsAreConserved | internal/apt/service.go:193-210 | over any run hits and misses add up to the refreshes with status records that passed the revision step |
| CollectionLaws.LookupsAreCounted | internal/apt/service.go:193-210 | a refresh counts one hit exactly when the cache matches, one miss for any other lookup, and nothing without a lookup |
| CollectionLaws.ValidWhenBothSourcesAre | internal/apt/service.go:93-126 | the upgrade metrics are valid if and only if both sources are |
| CollectionLaws.CacheHasOrigin | internal/apt/service.go:217-224 | what is cached is what one earlier refresh of the run read under the same revisions |
| CachingLaws.LastLookupIsCached | internal/apt/service.go:186-226 | after any run the cache holds the outcome of the last successful lookup at a revision, under its keys, and is empty if there was none |
| CachingLaws.HitsExactly | internal/apt/service.go:193-210 | a refresh hits if and only if the last successful lookup of the run was at its revision, for its installed packages, and got at least one package; any other lookup misses |
| CachingLaws.SecondRefreshHits | internal/apt/service.go:193-224 | a second refresh at the same revision and for the same installed packages hits, if the first got any package |
| CollectionLaws.CleanTextsAreConsistent | internal/apt/service.go:82-94 | clean status texts give the clean records that the cache laws of a run ask for |
| CollectionLaws.ReadsWhenReadable | internal/apt/service.go:228-255 | whether the indexes can be read does not depend on the installed packages |
| CollectionLaws.LookupIsRead | internal/apt/service.go:186-226 | hit or miss, the packages are those a direct read would give if it gives any, whatever reads failed before |
| CollectionLaws.CacheIsTransparent | internal/apt/service.go:70-226 | after any run a refresh reports the same statistics and errors as one with an empty cache, if and only if it does not hit while the indexes cannot be read |
| CollectionLaws.HitCountsAreOfRevision | internal/apt/service.go:193-203 | a hit reports the counts of a direct scan of the indexes at its revision, even while they cannot be read |
| CollectionLaws.ReportedCountsAreDirect | internal/apt/service.go:130-139 | through cache, filter, parsers and grouping index, the reported counts are those of the unfiltered indexes scanned directly |
| RefreshLaws.StreamsFail | internal/apt/parser.go:158-179 | parsing streams succeeds if and only if all open, deliver lines of admissible length and close; it is a read error if and only if the first fault is a failure to open |
| RefreshLaws.StatusReport | internal/apt/service.go:78-146 | which errors and health flags the status database and the metadata cause |
| RefreshLaws.ListsReport | internal/apt/service.go:98-128 | which errors and health flags the index files cause, on a hit, on a miss and without status records |
| RefreshLaws.TotalsReport | internal/apt/service.go:148-154 | after any run the exported error totals are the numbers of errors of each kind reported since the start, and the exported lookup totals those of the collector |
| RefreshLaws.ErrorsAreDistinct | internal/apt/service.go:70-154 | a refresh reports each error at most once |
| RefreshLaws.UncountedReport | internal/apt/service.go:98-128 | nothing is counted unless both sources could be read and parsed |
| RefreshLaws.InventoryReport | internal/apt/service.go:95-97 | the inventory counts the installed and the half-installed records |
| RefreshLaws.StageReport | internal/apt/service.go:257-275 | a stage is timed if and only if the refresh reached it, by its own duration |
| Snapshots.ObservedSnapshotter.constructor | internal/pkgcheck/checker.go:76-78 | a new observer remembers no success |
| Snapshots.ObservedSnapshotter.Observe | internal/pkgcheck/checker.go:80-106 | the remembered and the returned snapshot after one attempt |
| Snapshots.TickReports | internal/pkgcheck/checker.go:41-53 | an attempt succeeds if and only if neither collection nor reboot check fails; a success exports its own report, and a failure lists exactly its own errors |
| Snapshots.ReturnedIsLatestSuccess | internal/pkgcheck/checker.go:80-106 | after any run: attempt data and source health are current, success means no error, everything else is the latest success's |
| Snapshots.ExportedTotalsNeverDecrease | internal/pkgcheck/checker.go:98-105 | the six exported totals of collector and observer together never decrease from one refresh to the next |
| Snapshots.FlagAgreesUntilFirstSuccess | METRICS.md:108-116 | every refresh exports a validity flag that agrees with the exported source health if and only if there has been no success before |
| Histograms.NewDurationBuckets | internal/pkg/feature_metrics_ext.go:235-241 | a fresh map that counts no duration for every bound |
| Histograms.ObserveDuration | internal/pkg/feature_metrics_ext.go:243-249 | in place: every bucket counts the durations observed so far and not above its bound |
| Histograms.CloneDurationBuckets | internal/pkg/feature_metrics_ext.go:251-255 | a fresh map with the same counts |
| Histograms.BucketsAreCumulative | internal/pkg/feature_metrics_ext.go:243-249 | buckets grow with their bounds and never exceed the number of observations |
| Histograms.BoundsInMilliseconds | internal/pkg/feature_metrics_ext.go:29 | the seventeen bucket bounds |
| Histograms.BucketsCountObservations | internal/pkg/feature_metrics_ext.go:243-249 | each bucket holds the number of observations not above its bound |
| Histograms.SumOfTwo | internal/pkg/feature_metrics_ext.go:194-199 | the exported sum adds up the observations |
| Histograms.FeatureMetricState.constructor | internal/pkg/feature_metrics_ext.go:31-32 | a new state summarises the empty history |
| Histograms.FeatureMetricState.ObservePackageSnapshot | internal/pkg/feature_metrics_ext.go:186-217 | a scrape extends the history unless it shows no or the last observed attempt; all numbers summarise the history, and maps handed out earlier keep their contents |
| Histograms.FeatureMetricState.ObserveStages | internal/pkg/feature_metrics_ext.go:209-216 | every stage of the scrape, in any order, gains its duration, and no other stage changes |
| Histograms.FeatureMetricState.PackageCollectionObservations | internal/pkg/feature_metrics_ext.go:219-233 | counts, sums and buckets summarise the history per collection and per stage, in fresh maps |
| Histograms.FeatureMetricState.MarkErrorAttemptLogged | internal/pkg/feature_metrics_ext.go:174-184 | says yes exactly when the attempt differs from the last one asked about |
| Histograms.EveryAttemptIsObserved | internal/pkg/feature_metrics_ext.go:190-193 | over every sequence of scrapes, the counted attempts are exactly the nonzero ones shown |
| Histograms.EachAttemptOnceExactly | internal/pkg/feature_metrics_ext.go:190-193 | over every sequence of scrapes, no attempt is counted twice if and only if between two scrapes of one attempt no scrape shows another |
| Histograms.ReturningAttemptIsCountedTwice | internal/pkg/feature_metrics_ext.go:190-193 | any attempt scraped again after another one is counted again |
| Histograms.EachAttemptOnce | internal/pkg/feature_metrics_ext.go:190-193 | if attempt times do not go back, each attempt is counted once however often it is scraped, in order, and none is missed |

## Left out

- File, directory and decompression I/O: a read is a value or a failure supplied by the environment.
- Contexts, timeouts and clocks: a timeout is a read failure, and durations are arbitrary reals supplied per stage.
- Metric descriptors and emission, flags, configuration, scaffolding and the exporter framework: plumbing.
- Text that is not valid UTF-8: text is a sequence of code points. Unicode's digit and letter tables are parameters, fixed only on ASCII where a law needs it.
- Lower-casing beyond what decides whether an ASCII word occurs.
- 64-bit counters wrapping around, and rounding, infinities and NaN of 64-bit floats: counters are naturals, durations and sums are reals. The range check of epochs is modelled.
- Error texts and the order of wrapped errors inside one failure.
- The contents of the source metadata beyond passing them on.
- The mutexes of `Collector`, `ObservedSnapshotter` and `FeatureMetricState`: these classes are used sequentially. `IndexCache` alone interleaves; there a revision read, a directory listing and each file read happen at one moment each, revisions are never reused, the source has revisions and streams, and installed records keep the cache key unambiguous (`Revisions.CleanInstalled`; `CleanTexts.CleanTextIsClean` tells it from the text).
- Collection.Collector.Collect: stages are timed by a given function rather than by clock readings at each point.
- Sorting.SortSorts: the library's own sorting algorithms are not modelled; uniqueness makes the choice irrelevant.
- ParserLaws.ParsersAgreeExactly: assumes a tidy index, that is whole blank lines before the first stanza, no line of a lone carriage return, and keys of the three fields without surrounding white space. Outside, the exact statement is the one on single paragraphs, `EarlyExits.StanzasAgreeExactly`, which needs no such form.
- CollectionLaws.CacheIsTransparent: stage timings and the two cache totals differ with a cache by design, and within a run two readable answers at equal revisions are taken to be equal, and installed records to be clean in the same sense.
