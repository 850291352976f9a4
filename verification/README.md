# Verified model of yap's package logic

yap builds packages for several Linux distributions and installs their
dependencies without the native package managers. These modules model the logic
that has to be right for that: which packages a request pulls in and in what
order, which version of a package is the newest, how the dpkg status database is
read, printed and rewritten while packages are installed, how running builds are
kept track of, how the files of an RPM are linked together, and how the
declarations of a PKGBUILD add up. Functions say what the program computes;
classes and methods update fields, arrays and a disk step by step as the program
does, and are proved against those functions; lemmas state what the results mean.

`dafny verify dfyconfig.toml` checks everything.

| files | part of yap |
|---|---|
| `Text.dfy` | the byte-string helpers of the Go library that the program uses |
| `DebVersion.dfy` | Debian version order |
| `AptIndex.dfy`, `AptSchedule.dfy`, `AptCache.dfy`, `AptRuns.dfy` | the merged apt index: as a value, over all schedules, as mutable caches, over all runs |
| `Dfs.dfy` | the search behind the three resolvers |
| `AptResolver.dfy`, `DnfIndex.dfy`, `DnfResolver.dfy`, `ApkResolver.dfy` | the resolvers and the dnf index |
| `Deb822.dfy`, `DpkgStatus.dfy` | stanzas, and the status database as text |
| `FileSystem.dfy`, `StatusWriter.dfy`, `InstallTransaction.dfy` | the disk with its crashes, the atomic rewrite, the install run |
| `BuildRegistry.dfy` | the registry of builds |
| `Hardlinks.dfy` | hard links in RPM payloads |
| `Pkgbuild.dfy`, `SplitPackages.dfy`, `PkgbuildObject.dfy` | PKGBUILD declarations and sub-packages |

A `char` stands for one byte of a Go string. The host architecture, the installed
packages, the rpm version comparison, the clock, the module filter and every
success or failure of a file operation or script are parameters or arbitrary.
The fields of a PKGBUILD and the entries of its maps are slots of one map, named by
the variable or function that sets them, and the fields of a build session are one
record.

A rename is taken to be durable at once: the code syncs the temporary file but not
the directory, so that a crash right after a rename never brings the old file back
is an assumption of `FileSystem.dfy`, and "a later crash leaves as much or more"
rests on it.

Where code and comments differ the model follows the code:

- the dnf cache prefers a package of a better architecture even if it cannot be
  downloaded, and then the order of arrival decides
  (`DnfIndex.DownloadableIsKeptExactly`, `DnfIndex.ArrivalOrderCanMatter`);
- the dnf resolver does not report every missing requirement: a name first asked for
  softly is marked seen (`DnfResolver.UnresolvedListIsExact`,
  `DnfResolver.SoftFirstIsUnreported`);
- the dnf resolver returns at an installed package without walking its
  dependencies (`DnfResolver.ReachedExactly`, `DnfResolver.InstalledIsNotWalked`);
- the apt index can carry the dependencies or the file of an older version than its
  newest (`AptSchedule.PartFollowsExactly`, `AptSchedule.UrlFollowsExactly`,
  `AptSchedule.FlushTogetherExactly`, with inputs in
  `AptSchedule.CommaKeepsOlderDepends`, `AptSchedule.AllKeepsOlderBaseURL` and
  `AptSchedule.OverlayKeepsOlderFile`);
- a value read from a continuation line holding a tab and a dot is a lone dot, and
  is printed as the mark of a blank line (`DpkgStatus.TabDotIsRead`;
  `Deb822.NormalExactly` says which values survive);
- with an empty architecture argument and an Architecture field in the control
  text, the status entry is stored under one key and read back under another, and a
  new package never becomes installed (`InstallTransaction.KeyMatchesExactly`,
  `InstallTransaction.UnqualifiedStaysUnpacked`);
- control texts are filed by package name alone
  (`InstallTransaction.OwnControlExactly`, `InstallTransaction.LaterControlIsUsed`);
- a qualified variable loses to an unqualified one after it
  (`Pkgbuild.HighestCountsExactly`, `Pkgbuild.PlainAfterDistroCounts`);
- sub-package overrides qualified with x86_64, or with an architecture and a
  distribution, are ignored (`SplitPackages.X86OverrideIsDropped`,
  `SplitPackages.CombinedOverrideIsDropped`);
- `install` and `changelog` of one sub-package show in the next
  (`SplitPackages.InstallIsNotCopied`, `SplitPackages.InstallReachesTheNext`);
- a payload path ending in `.rpm-new` can be lost (`Hardlinks.LinkedExactly`,
  `Hardlinks.OrderCanMatter`);
- the epoch of a version constraint in a seed of the apt resolver is cut off with the
  name, and the rest taken for an architecture (`AptResolver.EpochInSeedIsArch`);
- a tilde inside the version of an apk dependency leaves operator and version in the
  name (`ApkResolver.TildeIsCutFirst`);
- in a boolean dependency, blanks have replaced the parentheses before the filter
  for rpmlib features looks for one, so that filter never applies
  (`DnfResolver.NoTokenIsRpmlib`, `DnfResolver.RpmlibIsExpanded`).

## Model

| member | source | states |
|---|---|---|
| DebVersion.VersionPreorder | pkg/aptcache/version.go:17-42 | `CompareDebVersion` is a total preorder on all strings: it answers -1, 0 or 1, negates when its arguments are swapped, and is transitive, with empty strings, tildes and unparseable epochs included |
| DebVersion.PartIsPolicy | pkg/aptcache/version.go:78-102 | on every pair of strings the chunk comparison gives the answer of the byte-at-a-time algorithm of Debian Policy section 5.6.12 |
| DebVersion.DigitComparesNumbers | pkg/aptcache/version.go:169-178 | digit strings of any length, leading zeros included, compare as the natural numbers they denote |
| DebVersion.PolicyChunk | pkg/aptcache/version.go:128-166 | one non-digit chunk is decided as Policy decides it byte by byte: tilde below the end, letters before everything else |
| DebVersion.CompareVersionPart | pkg/aptcache/version.go:78-102 | the loop over reassigned strings computes the chunk-wise order the theorems are about |
| DebVersion.CompareNonDigitChunks | pkg/aptcache/version.go:128-151 | the index loop computes the padded lexicographic order of the two chunks |
| DebVersion.SplitNonDigit | pkg/aptcache/version.go:105-113 | the loop cuts at the first digit: prefix and rest make up the string |
| DebVersion.SplitDigit | pkg/aptcache/version.go:116-124 | the loop cuts at the first non-digit: prefix and rest make up the string |
| DebVersion.SplitDebVersion | pkg/aptcache/version.go:46-62 | the reassigning code computes epoch, upstream version and revision; an epoch that is no 64-bit number stays part of the version |
| DebVersion.CompareVersions | pkg/aptcache/version.go:17-42 | the whole comparison as executed is `CompareDebVersion` |
| DebVersion.VersionsCompareByParts | pkg/aptcache/version.go:17-62 | written from an epoch number, an upstream version and a revision, versions compare by epoch, then by upstream version, then by revision, each part as Policy does; a missing epoch is 0 and a missing revision "" |
| DebVersion.EveryVersionIsWritten | pkg/aptcache/version.go:46-62 | every string is written in this way, the epoch being what stands before the first colon if that is a 64-bit number, and the revision what follows the last hyphen |
| DebVersion.EmptyIsLowest | pkg/aptcache/version.go:17-27 | the empty string is below every other |
| DebVersion.AtoiExactly | pkg/aptcache/version.go:46-54 | an epoch is a number exactly when it is digits, with at most one sign before them, within 64 bits |
| Dfs.RunIsExact | pkg/aptcache/aptcache.go:372-496 | a post-order search with a shared seen-set finishes exactly the keys reachable from its seeds, each once, on every finite graph, cyclic ones included |
| Dfs.RunIsOrdered | pkg/aptcache/aptcache.go:415-496 | along any path the far end is finished first unless something on the path leads back to its start |
| Dfs.RunIsTopological | pkg/aptcache/aptcache.go:415-496 | a key that lies on no cycle is finished after everything it reaches, whatever cycles there are elsewhere |
| Dfs.CollectIsExact | pkg/aptcache/aptcache.go:432-463 | what is appended while finishing is exactly what some finished key emits |
| Dfs.CollectCounts | pkg/aptcache/aptcache.go:432-463 | an item is appended once per finished key that emits it |
| Dfs.CollectKeepsOrder | pkg/aptcache/aptcache.go:432-463 | the item one key appended stands in the output before the item the other appended, place for place, also when several keys append the same item |
| Dfs.RunListsInOrder | pkg/aptcache/aptcache.go:415-496 | so along any path the item of the far end stands before the item of the near end unless something on the path leads back |
| Dfs.RunListsTopologically | pkg/aptcache/aptcache.go:415-496 | and its item is listed after those of everything it reaches |
| AptIndex.KeyInjective | pkg/aptcache/aptcache.go:183-189 | for colon-free names equal keys mean equal names, and equal architectures unless both are stored under the bare name |
| AptIndex.FlushKeepsCoherent | pkg/aptcache/parse.go:459-485 | flushing any stanza, of either phase, keeps every key equal to `entryKey` of its entry, the secondary index exact, and every provider stored |
| AptIndex.AddEntryKeepsCoherent | pkg/aptcache/aptcache.go:204-212 | so does inserting or replacing an entry |
| AptIndex.MergeKeepsCoherent | pkg/aptcache/parse.go:162-191 | so does folding in any other coherent cache |
| AptIndex.ScanIsExact | pkg/aptcache/aptcache.go:541-554 | the secondary index answers exactly when a scan over all entries for a qualified key of that name would, and with such an entry |
| AptIndex.LookupIsExact | pkg/aptcache/aptcache.go:224-271 | a name, qualified or not, is found exactly when some entry carries it without the qualifier, and the entry found carries it |
| AptIndex.RebuiltNameFindsEntry | pkg/aptcache/download.go:64-71 | the name rebuilt from an entry looks up that very entry |
| AptIndex.DependIsName | pkg/aptcache/parse.go:555-588 | of an item of a dependency field, a name perhaps with an architecture, a constraint and alternatives after it, the name is kept |
| AptIndex.DependsAreNames | pkg/aptcache/parse.go:549-588 | a dependency field of such items separated by commas gives their names, in order |
| AptIndex.ProvideIsName | pkg/aptcache/parse.go:590-606 | of an item of a Provides field, a name perhaps with a version after it, the name is kept |
| AptIndex.MultiArchValues | pkg/aptcache/aptcache.go:78-91 | "foreign" and "allowed" redirect to the host architecture, "same" and nothing do not |
| AptSchedule.NewestVersionWins | pkg/aptcache/parse.go:162-233 | after any mix of flushes and merges an entry exists exactly when a stanza has its key, is a candidate exactly when one has a version, is essential exactly when one is, and its version is the newest of them |
| AptSchedule.ScheduleDoesNotMatter | pkg/aptcache/parse.go:61-141 | however the same stanzas are split into files and merged, entries agree on existence, candidacy, essential flag, and on version up to equivalence |
| AptSchedule.ScheduleKeepsCoherent | pkg/aptcache/parse.go:162-191 | every such schedule over colon-free names ends in a coherent index |
| AptSchedule.ProvidersInOrder | pkg/aptcache/parse.go:162-191 | the providers of a capability are the registrations of all stanzas in file order, through whatever private caches they came |
| AptSchedule.ProvidersPermute | pkg/aptcache/parse.go:61-141 | two schedules over the same stanzas list the same providers, each as often |
| AptSchedule.MultiArchIsLast | pkg/aptcache/parse.go:194-216 | the Multi-Arch field is the last one given in file order, and no list marks an entry installed |
| AptSchedule.InstalledExactly | pkg/aptcache/parse.go:487-507 | after the overlay an entry is installed exactly when a status stanza of its key says so, or it was before |
| AptSchedule.BareListsAreComplete | pkg/aptcache/parse.go:162-191 | after every schedule the list of a bare name holds every stored key qualified with it |
| AptSchedule.ArtifactsAreCoherent | pkg/aptcache/parse.go:218-266 | for a key whose stanzas are of a concrete architecture and whose versioned stanzas are complete, Version, Filename, SHA256, Size and BaseURL come together from one stanza of newest version |
| AptSchedule.PartFollowsExactly | pkg/aptcache/parse.go:218-266 | for each of Depends, Pre-Depends, Filename, SHA256 and Size: however the stanzas are split into files, the entry's field is that of some stanza of newest version, exactly when every newest stanza holds something there, or no versioned stanza holds something that no newest one does |
| AptSchedule.UrlFollowsExactly | pkg/aptcache/parse.go:218-266 | for a key whose stanzas are all of concrete architectures or all of none: however they are split into files, the entry's base URL is that of some stanza of newest version, exactly when the architecture is concrete and every newest stanza names a file and a base URL, or every stanza of the key has the base URL of a newest one |
| AptSchedule.KeysAreUniform | pkg/aptcache/aptcache.go:183-189 | the stanzas of one key of colon-free names are all of concrete architectures or all of none |
| AptSchedule.OlderUrlIsKept | pkg/aptcache/parse.go:61-141 | a load of two files that ends with the base URL of the first stanza, for any newest stanza without file, base URL or concrete architecture |
| AptSchedule.FlushTogetherExactly | pkg/aptcache/parse.go:487-547 | a stanza flushed in either phase, the overlay of installed packages included, leaves version and file fields together exactly when it has no version, loses on version, or gives every file field the entry holds |
| AptSchedule.DependsAreCoherent | pkg/aptcache/parse.go:238-266 | when every newest stanza has both lists, version, Depends and Pre-Depends come together from one newest stanza |
| AptSchedule.MergePartExactly | pkg/aptcache/parse.go:238-266 | a merged entry that wins hands a field over exactly when it holds something or the other had nothing there |
| AptSchedule.OlderPartIsKept | pkg/aptcache/parse.go:61-141 | a load of two files that ends with the newest version and the field of an older stanza, for any newest stanza that holds nothing there |
| AptSchedule.CommaKeepsOlderDepends | pkg/aptcache/parse.go:549-585 | so with a newer stanza whose Depends field is a comma |
| AptSchedule.AllKeepsOlderBaseURL | pkg/aptcache/parse.go:238-266 | for Architecture: all, two files can end with version, file name and checksum of the newer stanza and the base URL of the older |
| AptSchedule.OverlayKeepsOlderFile | pkg/aptcache/parse.go:487-547 | an installed version newer than all offered takes over the version and leaves the file fields of an older one: an input where they part |
| AptCache.Entry.MergeStanza | pkg/aptcache/parse.go:487-517 | the field-by-field update of a record is the merge the theorems are about |
| AptCache.Entry.MergeFields | pkg/aptcache/parse.go:194-216 | so is the update of a record from another record |
| AptCache.Entry.CopyInfoArtifacts | pkg/aptcache/parse.go:238-266 | so is copying the artifact fields |
| AptCache.Cache.FlushStanza | pkg/aptcache/parse.go:459-485 | the imperative flush changes the three maps as the value model says, leaving no record shared |
| AptCache.Cache.FlushProvides | pkg/aptcache/parse.go:590-606 | the loop over the Provides items registers exactly the named capabilities, in order |
| AptCache.Cache.MergeFrom | pkg/aptcache/parse.go:162-191 | the walk over the other map in any order gives one result: keys, merged entries, appended providers and bare-name lists |
| AptCache.Cache.MergeProviders | pkg/aptcache/parse.go:185-187 | provider lists are appended per capability |
| AptCache.Cache.AddEntry | pkg/aptcache/aptcache.go:204-212 | the stored record is a copy under its own key, and indexed |
| AptCache.Cache.Lookup | pkg/aptcache/aptcache.go:224-271 | the chain of map reads ends at the entry the value model names |
| AptCache.Cache.ScanEntryByName | pkg/aptcache/aptcache.go:541-554 | the secondary-index read is the one `ScanIsExact` speaks of |
| AptCache.ParsePartials | pkg/aptcache/parse.go:99-130 | every slot of the partials array holds the private cache of its own file |
| AptCache.LoadAptLists | pkg/aptcache/parse.go:61-141 | loading ends in the index of one schedule: a private cache per file, merged in file order; with `ScheduleDoesNotMatter` this is the index of any other schedule up to version equivalence |
| AptRuns.EveryRunIsCoherent | pkg/aptcache/aptcache.go:183-271 | after any run of `AddEntry`, stanza flushes of both phases and merges, over colon-free names, the index is coherent |
| AptRuns.EveryRunIsColonFree | pkg/aptcache/parse.go:549-606 | and all names in its dependency and provider lists are plain, so the resolver theorems apply to it |
| AptRuns.ResolveDownloadJobs | pkg/aptcache/download.go:260-289 | all names resolve to jobs in order, or the call fails, exactly when some name has no entry, no file or no base URL |
| AptRuns.JobIsForName | pkg/aptcache/download.go:260-289 | the job made for a name is called by it and downloads an entry that carries it and has a file and a base URL |
| AptRuns.ClosureNames | pkg/aptcache/download.go:64-71 | the loop rebuilds one name per resolved entry |
| AptRuns.RebuiltNameMakesJob | pkg/aptcache/download.go:64-71 | a rebuilt name becomes the job of the entry it came from exactly when that entry has a file and a base URL and its key has no opening parenthesis and no blanks at its ends |
| AptRuns.DownloadClosure | pkg/aptcache/download.go:53-79 | resolving, rebuilding the names and looking them up again ends with one job for every listed entry, its own, in the order of the list, exactly when all listed entries have a file and a base URL and plain keys |
| AptRuns.RequestFindsExactly | pkg/aptcache/aptcache.go:439-458 | a request finds an entry exactly when some entry carries its name, and one that carries it |
| AptRuns.VirtualIsFound | pkg/aptcache/aptcache.go:439-475 | in a coherent index the provider that a virtual request falls back to is always found |
| AptRuns.OwnArchitectureWins | pkg/aptcache/aptcache.go:439-522 | an entry stored for the architecture asked for is the one found, or the host entry of a Multi-Arch: foreign package |
| AptRuns.BestEntryIsFound | pkg/aptcache/aptcache.go:439-458 | of all entries carrying the name of a request the one found ranks highest: the architecture asked for first, then none or all, then the host, then any other |
| AptRuns.BestEntryIsLookedUp | pkg/aptcache/aptcache.go:224-271 | the same for a lookup by name: the qualified key first if one is given, then none or all, then the host, then any other |
| AptRuns.AddedIsLookedUp | pkg/aptcache/aptcache.go:204-271 | an entry just added is what its key looks up, and no other entry has changed |
| AptRuns.ConstraintIsCut | pkg/aptcache/download.go:260-276 | a version constraint in parentheses is cut from a name to download |
| AptRuns.UnresolvedMeansAbsent | pkg/aptcache/aptcache.go:372-496 | the unresolved list holds exactly the reachable names that no entry carries and no package provides |
| AptRuns.RequirementsAreSettled | pkg/aptcache/aptcache.go:372-496 | in a coherent index, every Pre-Depends and Depends of an entry some reachable request finds is served by an installed or listed entry that carries or provides it, or is in the unresolved list |
| AptResolver.InstallListIsExact | pkg/aptcache/aptcache.go:372-496 | the install list holds exactly the not-installed entries that some request reachable from the seeds finds, itself or through its provider |
| AptResolver.ReachedExactly | pkg/aptcache/aptcache.go:372-576 | a request is reachable exactly when a seed makes it, or a reachable request finds an entry, or takes its provider, whose Pre-Depends or Depends name it, with the architecture of that entry when it is concrete and else the inherited one |
| AptResolver.SeedsAsk | pkg/aptcache/aptcache.go:385-405 | a seed asks for its name, with the architecture after its colon, or else the host's, and without its constraint |
| AptResolver.EpochInSeedIsArch | pkg/aptcache/aptcache.go:385-405 | in a seed whose constraint has an epoch, what follows the epoch is taken for an architecture |
| AptResolver.UnresolvedListIsExact | pkg/aptcache/aptcache.go:372-496 | the unresolved list holds exactly the reachable names with neither entry nor provider |
| AptResolver.ListedOncePerRequest | pkg/aptcache/aptcache.go:415-496 | an entry is listed once per reachable request resolving to it, hence more than once for mixed architectures |
| AptResolver.InstallListIsOrdered | pkg/aptcache/aptcache.go:415-496 | along any chain of requests the listing made for the far end stands before the listing made for the near end, also when the same entries are listed again, unless the chain leads back |
| AptResolver.InstallListIsTopological | pkg/aptcache/aptcache.go:415-496 | the listing made for a request on no cycle stands after those of everything it reaches, whatever cycles the index has elsewhere |
| AptResolver.DependencyComesFirst | pkg/aptcache/aptcache.go:415-496 | the listing made for a dependency, direct or through a virtual name, stands before the listing made for the request asking for it unless it leads back to it |
| AptResolver.EveryListingIsOrdered | pkg/aptcache/aptcache.go:415-496 | every single listing, the first of its entry or a later one, was made for a reachable request, and each dependency of that request stands somewhere before it or leads back, the request then lying on a cycle |
| AptResolver.GraphIsClosed | pkg/aptcache/aptcache.go:430-463 | all requests the search can make lie in a finite closed graph |
| AptResolver.DepVisitor.Visit | pkg/aptcache/aptcache.go:415-463 | one call of the recursive closure is one step of the search on the mutable seen-set and lists; it terminates by the unseen part of the graph |
| AptResolver.DepVisitor.VisitDeps | pkg/aptcache/aptcache.go:560-576 | Pre-Depends are walked before Depends, with the inherited architecture |
| AptResolver.ResolveDeps | pkg/aptcache/aptcache.go:372-411 | the imperative resolver returns exactly the install and unresolved lists the theorems describe |
| DnfIndex.Cache.AddPackage | pkg/dnfcache/dnfcache.go:382-404 | the loop over the provided capabilities and the replacement test change the index as the value model says |
| DnfIndex.KeptIsBest | pkg/dnfcache/dnfcache.go:31-67 | in any order of arrival, if all candidates of a name can be downloaded the kept one is of the host architecture if any is, else noarch if any is, and no candidate of its own architecture has a greater epoch:version-release, a missing epoch counting as 0 |
| DnfIndex.KeptIsCandidate | pkg/dnfcache/dnfcache.go:382-394 | whatever the candidates, a name is known exactly when an unblocked one carries it, and one of them is kept |
| DnfIndex.ArrivalOrderDoesNotMatter | pkg/dnfcache/dnfcache.go:382-394 | two arrival orders keep candidates of the same rank, and of equivalent version when that rank is not foreign |
| DnfIndex.DownloadableIsKeptExactly | pkg/dnfcache/dnfcache.go:44-67 | a name keeps a downloadable candidate in every sequence of arrivals drawn from a pool that holds one, exactly when no candidate of the pool without a file would replace one with a file |
| DnfIndex.ArrivalOrderCanMatter | pkg/dnfcache/dnfcache.go:382-394 | a noarch package with a file and one of the host architecture without: the order of arrival alone decides which is kept |
| DnfIndex.ProviderIsReplaced | pkg/dnfcache/dnfcache.go:382-404 | a newer package that no longer provides a capability takes the place of the provider in the index, while the capability still leads to its name |
| DnfIndex.AddAllIsCoherent | pkg/dnfcache/dnfcache.go:382-404 | entries are stored under their own name and every provider has an entry |
| DnfIndex.ProvidersAreExact | pkg/dnfcache/dnfcache.go:382-404 | the providers of a capability are exactly the unblocked packages, kept or not, that offer it under another name than their own |
| DnfIndex.StripCuts | pkg/dnfcache/helpers.go:22-47 | what follows a name after a blank is cut; a boolean dependency is left whole |
| DnfResolver.TokensArePlain | pkg/dnfcache/helpers.go:63-113 | tokens of an expanded boolean dependency are words without blanks, commas or parentheses of either kind: never boolean again, unchanged by stripping |
| DnfResolver.KeptAreAskedFor | pkg/dnfcache/helpers.go:63-113 | kept are exactly the tokens that are neither operator nor keyword nor the operand right after an operator, in order |
| DnfResolver.WordsAreExpanded | pkg/dnfcache/helpers.go:63-113 | a boolean dependency of any words is expanded to exactly those that are asked for, in order |
| DnfResolver.OperatorsAndKeywords | pkg/dnfcache/helpers.go:63-113 | which tokens are operators, and keywords in either case |
| DnfResolver.ExpandBooleanDep | pkg/dnfcache/helpers.go:63-113 | the loop with its skip flag yields exactly the kept tokens |
| DnfResolver.NoTokenIsRpmlib | pkg/dnfcache/helpers.go:63-113 | no token the filter for rpmlib features looks at begins with what it looks for |
| DnfResolver.RpmlibIsExpanded | pkg/dnfcache/helpers.go:63-113 | "(rpmlib(X))" is expanded to the names "rpmlib" and "X" |
| DnfResolver.StripTwice | pkg/dnfcache/helpers.go:22-47 | stripping a constraint twice changes nothing |
| DnfResolver.PickProvider | pkg/dnfcache/dnfcache.go:357-380 | a provider of the host architecture if there is one, else a noarch one |
| DnfResolver.InstallListIsExact | pkg/dnfcache/dnfcache.go:214-322 | the list holds exactly the packages that reachable unsatisfied names stand for |
| DnfResolver.InstalledNamesAreDistinct | pkg/dnfcache/dnfcache.go:214-322 | listed names are pairwise distinct, and none is installed or already provided |
| DnfResolver.ReachedExactly | pkg/dnfcache/dnfcache.go:256-313 | a name is reached exactly when a seed asks for it, or a reachable name does that is not on the system: as a boolean dependency for its tokens, as a package for its requirements and recommendations, as a capability for its provider |
| DnfResolver.DependenciesAreReached | pkg/dnfcache/dnfcache.go:269-297 | every requirement and recommendation of a listed package is reached, and every token of a boolean one |
| DnfResolver.TargetsAre | pkg/dnfcache/dnfcache.go:256-313 | what a name stands for: a boolean dependency, something on the system, the package of that name, the provider chosen, or nothing |
| DnfResolver.SatisfiedSeedsStop | pkg/dnfcache/dnfcache.go:256-267 | seeds that are all installed or provided give two empty lists, whatever they require |
| DnfResolver.InstalledIsNotWalked | pkg/dnfcache/dnfcache.go:256-267 | a is installed and requires b, which is known and not installed: asking for a lists and reports nothing |
| DnfResolver.RequirementsAreSettled | pkg/dnfcache/dnfcache.go:235-313 | over a coherent index of plain names, every requirement of a listed package is installed, provided or listed, by its own name or by the name of its chosen provider, or is in neither index map; a boolean one when each of its tokens is |
| DnfResolver.InstallListIsOrdered | pkg/dnfcache/dnfcache.go:235-313 | along any chain of requests the listing of the far end stands before that of the near end, unless the chain leads back |
| DnfResolver.InstallListIsTopological | pkg/dnfcache/dnfcache.go:235-313 | everything that a name on no cycle reaches is listed before it, whatever cycles the index has elsewhere |
| DnfResolver.DependencyComesFirst | pkg/dnfcache/dnfcache.go:235-313 | a requirement or recommendation, direct or through one capability, is listed before the package asking for it unless it leads back to it |
| DnfResolver.UnresolvedListIsExact | pkg/dnfcache/dnfcache.go:230-313 | a name is reported, once, exactly when it is missing and the first request for it in visiting order is a hard one |
| DnfResolver.TraceIsReachable | pkg/dnfcache/dnfcache.go:230-313 | the requests made name exactly the reachable names |
| DnfResolver.TraceIsJustified | pkg/dnfcache/dnfcache.go:230-313 | every request is made for a seed or follows an earlier first request of its package, capability or boolean dependency, after those before it in the same list |
| DnfResolver.RequestsComeFrom | pkg/dnfcache/dnfcache.go:235-313 | every request is a hard one of a seed, or made hard by an earlier request whose package requires it, capability leads to it or hard boolean dependency names it, or softly by one whose package recommends it or soft one names it |
| DnfResolver.MissedOnlySoftly | pkg/dnfcache/dnfcache.go:276-297 | a reachable missing name goes unreported only after an earlier first request whose package or boolean dependency asks for it softly and never hard |
| DnfResolver.SoftFirstIsUnreported | pkg/dnfcache/dnfcache.go:230-313 | a requires b and x, b recommends x, x is missing: nothing is reported |
| DnfResolver.HardFirstIsReported | pkg/dnfcache/dnfcache.go:230-313 | with the requirements in the other order x is reported |
| DnfResolver.GraphIsClosed | pkg/dnfcache/dnfcache.go:237-313 | the names the search can meet are finitely many |
| DnfResolver.DepVisitor.Visit | pkg/dnfcache/dnfcache.go:235-313 | one call of the recursive closure, soft or hard, is one step of the search; it terminates |
| DnfResolver.ResolveDeps | pkg/dnfcache/dnfcache.go:214-322 | the imperative resolver returns exactly the install list and the unresolved list the theorems describe |
| ApkResolver.FirstOfNameIsKept | pkg/apkindex/parser.go:143-165 | a name is known exactly when a package carries it, and the first one that does is kept |
| ApkResolver.ProvidersAreExact | pkg/apkindex/parser.go:143-165 | the providers of a capability are exactly the packages, kept or not, that offer it |
| ApkResolver.ConstraintIsCut | pkg/apkindex/parser.go:14-33 | from a name with an operator and a version after it the name is left |
| ApkResolver.TildeIsCutFirst | pkg/apkindex/parser.go:14-33 | but a tilde in the version is cut first, and the operator before it stays in the name |
| ApkResolver.InstallListIsExact | pkg/apkindex/apkindex.go:99-169 | a package is listed exactly when a reachable name stands for it |
| ApkResolver.ReachedExactly | pkg/apkindex/apkindex.go:99-169 | a name is reachable exactly when it is asked for, or a package some reachable name stands for depends on it |
| ApkResolver.RequirementsAreSettled | pkg/apkindex/apkindex.go:111-169 | every dependency of a listed package stands for a listed one, or for nothing in the index |
| ApkResolver.ListedOncePerName | pkg/apkindex/apkindex.go:111-169 | a package is listed once per reachable name that stands for it, so twice when asked for by its own and by a virtual name |
| ApkResolver.InstallListIsOrdered | pkg/apkindex/apkindex.go:111-169 | along any chain of names the listing made for the far end stands before the listing made for the near end, also when a package is listed twice, unless the chain leads back |
| ApkResolver.InstallListIsTopological | pkg/apkindex/apkindex.go:111-169 | the listing made for a name on no cycle stands after those of everything it reaches, whatever cycles the index has elsewhere |
| ApkResolver.DependencyComesFirst | pkg/apkindex/apkindex.go:111-169 | the listing made for a followed dependency that resolves stands before the listing made for the name asking for it unless it leads back |
| ApkResolver.EveryListingIsOrdered | pkg/apkindex/apkindex.go:111-169 | every single listing, the first of its package or a later one, was made for a reachable name, and each followed dependency of the package stands somewhere before it or leads back, the name then lying on a cycle |
| ApkResolver.DepVisitor.Visit | pkg/apkindex/apkindex.go:111-160 | one call of the recursive closure is one step of the search; it terminates |
| ApkResolver.ResolveDeps | pkg/apkindex/apkindex.go:99-169 | the imperative resolver returns exactly that list |
| Deb822.ParseStanzas | pkg/deb822/deb822.go:24-109 | the scanner loop over stanza map, current field and value computes the parse |
| Deb822.ScanUnlines | pkg/deb822/deb822.go:24-33 | scanning newline-terminated lines gives them back without one trailing carriage return |
| Deb822.BlankLineSeparates | pkg/deb822/deb822.go:36-56 | a blank line separates: the stanzas before it and those after it are read as if each part stood alone |
| Deb822.AnyFieldIsRead | pkg/deb822/deb822.go:63-126 | any field line starts its field with the trimmed text after the first colon, and each line after it that starts with a blank adds a line without that blank, " ." an empty one |
| Deb822.StrayLineIsSkipped | pkg/deb822/deb822.go:70-74 | a line without a colon is skipped anywhere |
| Deb822.CommentIsSkipped | pkg/deb822/deb822.go:58-61 | a comment is skipped at the start and after a blank line |
| Deb822.RunField | pkg/aptinstall/status.go:264-314 | parsing the printed form of any value finishes the field before it and yields the value with its first line trimmed, and its later lines without trailing carriage return and lone dots blanked |
| Deb822.NormalExactly | pkg/deb822/deb822.go:63-126 | a value survives printing and parsing exactly when its first line is trimmed and no later line is a lone dot or ends in a carriage return |
| Deb822.FieldLinesAreLines | pkg/aptinstall/status.go:279-314 | no printed line of a field is blank or holds a newline |
| Deb822.ParsedNamesAreValid | pkg/deb822/deb822.go:63-100 | every field name the parser delivers can be printed back |
| DpkgStatus.SortStrings | pkg/aptinstall/status.go:208-208 | the keys in byte order, each once |
| DpkgStatus.LastStanzaIsRead | pkg/aptinstall/status.go:103-141 | what is read under a key is the last stanza of that package and architecture, if there is one |
| DpkgStatus.KeysDiffer | pkg/aptinstall/status.go:103-141 | packages with names free of colons have different keys unless name and architecture agree |
| DpkgStatus.PrintOrderLists | pkg/aptinstall/status.go:224-262 | every field of an entry is written exactly once, known or not |
| DpkgStatus.StanzaLinesAreLines | pkg/aptinstall/status.go:224-314 | a printed entry contains no blank line but the one that ends it |
| DpkgStatus.EntryRoundTrip | pkg/aptinstall/status.go:224-314 | a printed entry is parsed as one stanza with the same fields and normal values |
| DpkgStatus.EntrySurvivesExactly | pkg/aptinstall/status.go:224-314 | it is parsed back unchanged exactly when all its values are normal |
| DpkgStatus.AnyOrderReadsBack | pkg/aptinstall/status.go:202-221 | in whatever order entries are written, reading gives the same keys and fields, values normal |
| DpkgStatus.StatusSurvivesExactly | pkg/aptinstall/status.go:103-141 | a written database is read back unchanged exactly when its values are normal |
| DpkgStatus.StatusRoundTrip | pkg/aptinstall/status.go:103-221 | for every well-formed database reading the written file gives it back |
| DpkgStatus.ReadIsWellFormed | pkg/aptinstall/status.go:103-141 | whatever the file holds, what is read has matching keys and printable names; it is well formed once its values are normal |
| DpkgStatus.MovedReadsBack | pkg/aptinstall/status.go:103-221 | an entry stored under a key that sorts before its own moves to its own key on reading, unless an entry stands there already, which wins |
| DpkgStatus.TabDotIsRead | pkg/deb822/deb822.go:63-126 | a text with a tab and a dot on a continuation line is read as a value that does not survive the next rewrite |
| StatusWriter.WriteDeb822Field | pkg/aptinstall/status.go:279-314 | the three branches write exactly the lines of the field to the temporary file, or fail |
| StatusWriter.WriteStatusEntry | pkg/aptinstall/status.go:224-262 | the loops over known and extra fields write exactly the lines of the entry, or fail |
| StatusWriter.WriteAllStatusEntries | pkg/aptinstall/status.go:202-221 | a write without failure leaves exactly the text of the whole database |
| StatusWriter.WriteTemporary | pkg/aptinstall/status.go:155-185 | on success the temporary file is complete and synced; the status file was never touched |
| StatusWriter.WriteDpkgStatus | pkg/aptinstall/status.go:155-197 | in every state passed through the status file is the old one, but for the last, where it is the complete, synced new one on success |
| InstallTransaction.ReadDpkgStatus | pkg/aptinstall/status.go:103-141 | the loop over stanzas builds the map of the reading function; a missing file reads as empty |
| InstallTransaction.ParseControlFields | pkg/aptinstall/deb.go:253-264 | all stanzas of a control file are merged, later ones winning |
| InstallTransaction.BuildEntry | pkg/aptinstall/status.go:439-453 | control fields, status, name and architecture, in this order of precedence |
| InstallTransaction.ControlIsRead | pkg/aptinstall/deb.go:253-264 | a control file that is a printed stanza is read as the fields of that stanza, values normal |
| InstallTransaction.NewEntryKeeps | pkg/aptinstall/status.go:439-453 | every other field of the control text is in the entry as it was read, and no field comes from elsewhere |
| InstallTransaction.KeyMatchesExactly | pkg/aptinstall/status.go:448-462 | the key an entry is stored under is the one it reads back under exactly when the architecture is given or the control text names none |
| InstallTransaction.NewEntryIsKeyed | pkg/aptinstall/status.go:439-462 | whatever the control text, a new entry is fit for its key exactly when name and architecture survive printing, and no architecture given means none in the control text |
| InstallTransaction.NewEntryNormalExactly | pkg/aptinstall/status.go:439-462 | and reads back unchanged exactly when the values kept from the control text do |
| InstallTransaction.UpdateIsRead | pkg/aptinstall/status.go:423-479 | after a fitting update a reader finds the entry under its key, the other entries under theirs, and every value as one rewrite leaves it |
| InstallTransaction.UpdateSurvivesExactly | pkg/aptinstall/status.go:423-479 | that is what was stored exactly when every value in the file is normal |
| InstallTransaction.UnqualifiedUpdateMoves | pkg/aptinstall/status.go:448-479 | without an architecture argument but with one in the control text, the entry moves to the qualified key on reading unless one stands there already, which wins; what stood under the bare name is gone |
| InstallTransaction.UnqualifiedStaysUnpacked | pkg/aptinstall/aptinstall.go:289-387 | so such a package, not known before, stays marked unpacked: the update that marks it installed is lost |
| InstallTransaction.UpdateDpkgStatusForPackage | pkg/aptinstall/status.go:423-479 | for any status file and control text, every state passed through reads as the database before the one update or after it, rewriting included; failure leaves the old one, success the new one |
| InstallTransaction.InstallPackage | pkg/aptinstall/aptinstall.go:289-387 | for any status file and package, every state reads as the start with none, one or both of the updates "unpacked" and final; a failing configuration script only decides the final state |
| InstallTransaction.InstallPackages | pkg/aptinstall/aptinstall.go:120-129 | for any status file and packages, every state of the whole run reads as the start with some first part of the planned updates, later states with as much or more; success means all of them |
| InstallTransaction.InstallWithOptions | pkg/aptinstall/aptinstall.go:112-140 | the same from the resolved packages on, foreign ones dropped and control texts filed by package name |
| InstallTransaction.FilteredExactly | pkg/aptinstall/aptinstall.go:443-469 | the filter keeps every listing of a package that is of the host architecture, of all or of none, or Multi-Arch: same, as often as it is listed, and no other |
| InstallTransaction.FilteredKeepsOrder | pkg/aptinstall/aptinstall.go:443-469 | what is kept stays in its order |
| InstallTransaction.FilterForeignArchPackages | pkg/aptinstall/aptinstall.go:443-469 | the loop computes that filter |
| InstallTransaction.OwnControlExactly | pkg/aptinstall/aptinstall.go:229-244 | filing by name gives every package its own control text exactly when no two packages of one name differ in it |
| InstallTransaction.PreparedExactly | pkg/aptinstall/aptinstall.go:229-244 | so the packages are installed as they were resolved exactly then |
| InstallTransaction.CrashReadsTheSame | pkg/aptinstall/status.go:143-197 | whatever a crash leaves of a state with a synced status file, a reader finds the same database |
| InstallTransaction.CrashedRunIsAPrefix | pkg/aptinstall/aptinstall.go:121-129 | so a crash at any moment leaves the start with some first part of the plan, and a later crash as much of it or more |
| InstallTransaction.OthersAreUntouched | pkg/aptinstall/status.go:461-479 | entries no update names are never lost, and never changed where their values are normal, whatever the others hold and wherever the run is cut off; else they are what that many rewrites make of them |
| InstallTransaction.LastUpdateCounts | pkg/aptinstall/status.go:461-479 | what is read under a key is the entry of the last update of that key |
| InstallTransaction.PrefixByPackage | pkg/aptinstall/aptinstall.go:303-387 | after n updates, under the key of the last package of that key reached stands its entry, unpacked if only its first update is in and final otherwise; a package listed several times counts as its last listing |
| InstallTransaction.StatusByPackage | pkg/aptinstall/aptinstall.go:303-387 | the status read for it is unpacked between its two updates, and afterwards installed exactly when its configuration succeeded: never installed before it was marked unpacked |
| InstallTransaction.NotReachedIsUntouched | pkg/aptinstall/aptinstall.go:303-387 | a key none of whose packages has been reached keeps its entry |
| BuildRegistry.RunsAreSound | pkg/mcp/sessions.go:141-230 | in every state of every run the done channel is closed exactly once and exactly for finished sessions, and no running session was dropped |
| BuildRegistry.OutcomeIsFrozen | pkg/mcp/sessions.go:207-230 | a final state, error and end time never change afterwards, dropped or not |
| BuildRegistry.FinishIsRecorded | pkg/mcp/sessions.go:207-230 | after a Finish of a running session its state, error and end time are the ones given, at once and ever after, dropped or not; a Finish of any other changes nothing |
| BuildRegistry.DetailsAreRecorded | pkg/mcp/sessions.go:257-296 | runtime, image, output directory and cancellation are as given, all else about the session as it was; a registered session starts running without an error |
| BuildRegistry.OthersAreSeenAlike | pkg/mcp/sessions.go:141-296 | no operation changes what is seen of another session |
| BuildRegistry.LeavesRunningOnce | pkg/mcp/sessions.go:207-230 | a session leaves "running" at most once |
| BuildRegistry.AfterRegister | pkg/mcp/sessions.go:141-205 | right after a Register there are at most 200 sessions or all are running, the new one among them |
| BuildRegistry.DroppedAreOldest | pkg/mcp/sessions.go:173-205 | at every moment of a run every dropped session ended no later than every finished one kept, exactly when no session that finished was given an end time before one already dropped, as with a clock that does not run backwards |
| BuildRegistry.SortByEnd | pkg/mcp/sessions.go:191-196 | the in-place insertion sort orders by end time and keeps the elements |
| BuildRegistry.Registry.Register | pkg/mcp/sessions.go:141-168 | one step of the state machine: the new session runs, and only the oldest finished ones are dropped, no more than needed |
| BuildRegistry.Registry.EvictOldestTerminal | pkg/mcp/sessions.go:173-205 | the sessions deleted are finished, oldest first, and none when there is room |
| BuildRegistry.Registry.Finish | pkg/mcp/sessions.go:207-230 | one step: only a running session changes, and its channel is closed for the first time |
| BuildRegistry.Registry.Get | pkg/mcp/sessions.go:240-252 | a snapshot of the session as it is, or nothing |
| BuildRegistry.Registry.UpdateContainer | pkg/mcp/sessions.go:257-269 | one step that only touches the container fields |
| BuildRegistry.Registry.SetOutputDir | pkg/mcp/sessions.go:274-281 | one step that only touches the output directory |
| BuildRegistry.Registry.Cancel | pkg/mcp/sessions.go:284-296 | tells whether the session is known and requests cancellation; its state is left to Finish |
| Hardlinks.InodeKeyInjective | pkg/dnfinstall/extract.go:191-191 | equal packed keys mean equal device and inode numbers on 32 bits |
| Hardlinks.LinkedExactly | pkg/dnfinstall/extract.go:60-133 | for every payload order and every disk, every path of every link group ends up at the inode holding its group's data, groups apart, exactly when no path already in place is the temporary name of a file still to be written, and the disk did not hold the temporary names of two files as links to one inode |
| Hardlinks.AnyOrderLinks | pkg/dnfinstall/extract.go:60-133 | for a payload none of whose paths is another's temporary name the order does not matter: all orders succeed or none, depending on the disk |
| Hardlinks.FailsExactly | pkg/dnfinstall/extract.go:60-133 | for every payload order and every disk, extraction stops with a link that has nothing to link to exactly when some link comes after a file whose temporary name was the path of the data of its group |
| Hardlinks.OrderCanMatter | pkg/dnfinstall/extract.go:254-301 | a package shipping both "/a" and "/a.rpm-new" is extracted rightly in one order and wrongly in the other |
| Hardlinks.CollisionLoses | pkg/dnfinstall/extract.go:254-301 | a path that has served as a temporary name never comes back |
| Hardlinks.WriteRegularFile | pkg/dnfinstall/extract.go:254-301 | create, fill and rename leave the target on a fresh inode, or on that of a file already under the temporary name |
| Hardlinks.MakeHardlink | pkg/dnfinstall/extract.go:304-318 | on success the target names the inode of the source |
| Hardlinks.HardlinkTracker.HandleHardlink | pkg/dnfinstall/extract.go:60-71 | a link is made at once when its data is there, and queued otherwise |
| Hardlinks.HardlinkTracker.MaterializeData | pkg/dnfinstall/extract.go:75-87 | the new data file and all queued links of its key end up together |
| Hardlinks.HardlinkTracker.HandleRegularEntry | pkg/dnfinstall/extract.go:122-133 | one entry is one step of the specification |
| Hardlinks.Extract | pkg/dnfinstall/extract.go:159-242 | a run without errors links all groups exactly when the payload has no collision and the disk no shared temporary names, and no link came after its data had been renamed away |
| Pkgbuild.QualifiersRank | pkg/pkgbuild/pkgbuild.go:1074-1212 | the more a declaration's name says the higher it ranks: package manager, distribution, release, architecture, architecture with each of them |
| Pkgbuild.AddItemsApplies | pkg/pkgbuild/pkgbuild.go:202-235 | adding items is applying, in order, the declarations whose names apply to this system |
| Pkgbuild.OtherArchIsSkipped | pkg/pkgbuild/pkgbuild.go:1130-1168 | "key_arch" is dropped unless the architecture is the target's or, with no target set, the system's own; then it has priority 4 |
| Pkgbuild.OtherDistroIsSkipped | pkg/pkgbuild/pkgbuild.go:1171-1212 | "key__d" is dropped unless d is the full distribution, the distribution or its package manager; then it has priority 3, 2 or 1 |
| Pkgbuild.OtherArchOrDistroIsSkipped | pkg/pkgbuild/pkgbuild.go:1088-1138 | "key_arch__d" is dropped unless both fit; then the priorities add up |
| Pkgbuild.TwoDistrosAreSkipped | pkg/pkgbuild/pkgbuild.go:1171-1190 | a name with two distribution qualifiers is dropped |
| Pkgbuild.PlainApplies | pkg/pkgbuild/pkgbuild.go:1171-1182 | an unqualified name always applies, at priority 0 |
| Pkgbuild.UnderscoredApplies | pkg/pkgbuild/pkgbuild.go:1140-1182 | so does one with an underscore before something that is no architecture |
| Pkgbuild.UnknownNamesAreKept | pkg/pkgbuild/dispatch.go:185-241 | a variable or array of an unknown name is kept under its name |
| Pkgbuild.FirstTargetStays | pkg/pkgbuild/dispatch.go:185-205 | the target architecture is set once |
| Pkgbuild.FirstNameIsPkgname | pkg/pkgbuild/dispatch.go:218-241 | the first of a list of package names is the name of the package |
| Pkgbuild.FunctionsAreFiled | pkg/pkgbuild/pkgbuild.go:1010-1067 | hooks, package functions of sub-packages and helpers are told apart by name |
| Pkgbuild.PriorityIsHighest | pkg/pkgbuild/pkgbuild.go:212-220 | the priority remembered for a key is the highest declared |
| Pkgbuild.HighestFunctionWins | pkg/pkgbuild/pkgbuild.go:225-232 | of the functions declared for a key the last one of the highest priority is kept, in any order of declaration |
| Pkgbuild.LastAcceptedArray | pkg/pkgbuild/dispatch.go:218-241 | an array variable holds the last declaration accepted |
| Pkgbuild.LastAcceptedScalar | pkg/pkgbuild/dispatch.go:185-205 | a scalar variable holds the last declaration accepted |
| Pkgbuild.HighestCountsExactly | pkg/pkgbuild/pkgbuild.go:208-223 | the value an array variable ends up with is the highest-ranked declaration's exactly when no unqualified declaration follows it, or the last that does says the same |
| Pkgbuild.HighestArrayCounts | pkg/pkgbuild/dispatch.go:218-241 | an array variable ends up with the highest-ranked declaration's value when no unqualified one follows, and else with the last unqualified one's |
| Pkgbuild.HighestScalarCounts | pkg/pkgbuild/dispatch.go:185-205 | so does a scalar variable |
| Pkgbuild.PlainAfterDistroCounts | pkg/pkgbuild/pkgbuild.go:208-223 | "depends__<distribution>" loses to a plain "depends" after it and wins over one before it |
| Pkgbuild.FinalSources | pkg/pkgbuild/pkgbuild.go:530-534 | after Finalize the sources are the last unqualified list followed by the accepted qualified ones in order |
| Pkgbuild.FinalHashSums | pkg/pkgbuild/pkgbuild.go:984-1000 | the same for checksums of one kind |
| Pkgbuild.SourcesMatchHashSums | pkg/pkgbuild/dispatch.go:150-157 | sources and checksums declared pairwise, with the same qualifiers and lengths and in the same order, stay paired index by index |
| SplitPackages.SubPackageStandsAlone | pkg/pkgbuild/pkgbuild.go:554-603 | after restoring and overriding, the ten copied fields and the priorities of overrideable keys depend on the top-level values and the sub-package's own body alone |
| SplitPackages.EmptyBodyGets | pkg/pkgbuild/pkgbuild.go:554-576 | a sub-package that overrides nothing gets the top-level value of a copied field, and in any other field what the one before it left |
| SplitPackages.UnoverriddenGets | pkg/pkgbuild/pkgbuild.go:554-641 | a copied field that no override of its body names is the top-level one, whatever else this body and those before it say |
| SplitPackages.LastOverrideCounts | pkg/pkgbuild/pkgbuild.go:610-684 | the last unqualified override of a variable in a body is what the sub-package ends up with |
| SplitPackages.ArchOverrideCounts | pkg/pkgbuild/pkgbuild.go:610-684 | a list overridden for the architecture built for replaces the top-level one exactly when the top level declared it at no higher rank |
| SplitPackages.DistroOverrideCounts | pkg/pkgbuild/pkgbuild.go:610-684 | and one overridden for a distribution exactly when the distribution fits and the top level declared nothing of a higher rank |
| SplitPackages.InstallReachesTheNext | pkg/pkgbuild/pkgbuild.go:554-603 | an override of "install" or "changelog" in one body is what the next sub-package gets, though its own body is empty and whatever the top level says |
| SplitPackages.OverrideIsFiled | pkg/pkgbuild/pkgbuild.go:645-684 | an override accepted under an overrideable name is filed under an overrideable key, or under a name that sets no copied field |
| SplitPackages.ArchOverrideExactly | pkg/pkgbuild/pkgbuild.go:651-668 | an override for one architecture is recognised exactly when the architecture's name has no underscore |
| SplitPackages.X86OverrideIsDropped | pkg/pkgbuild/pkgbuild.go:651-668 | so one for x86_64 is dropped, on x86_64 itself, although the same name counts at the top level |
| SplitPackages.CombinedOverrideIsDropped | pkg/pkgbuild/pkgbuild.go:651-668 | an override for one architecture on one distribution is never recognised |
| PkgbuildObject.PKGBUILD.AddItem | pkg/pkgbuild/pkgbuild.go:202-235 | the field updates are the specified addition |
| PkgbuildObject.PKGBUILD.MapVariables | pkg/pkgbuild/dispatch.go:185-205 | scalars go to their field or to the custom variables; a target architecture already set stays |
| PkgbuildObject.PKGBUILD.MapArrays | pkg/pkgbuild/dispatch.go:218-241 | arrays go to their field, to the lists kept for Finalize, or to the custom arrays |
| PkgbuildObject.PKGBUILD.MapChecksumsArrays | pkg/pkgbuild/pkgbuild.go:984-1000 | all checksum kinds share one field and one list kept for Finalize |
| PkgbuildObject.PKGBUILD.Finalize | pkg/pkgbuild/pkgbuild.go:530-543 | the kept lists are appended, and a split package remembers its top-level values |
| PkgbuildObject.PKGBUILD.CopySplitOverrideFields | pkg/pkgbuild/pkgbuild.go:558-576 | exactly the ten fields and the priorities of the overrideable keys are copied |
| PkgbuildObject.PKGBUILD.RestoreTopLevelOverrides | pkg/pkgbuild/pkgbuild.go:599-603 | they are set back to the snapshot, if there is one |
| PkgbuildObject.PKGBUILD.ParseSplitOverrides | pkg/pkgbuild/pkgbuild.go:610-641 | the assignments of a body are applied in order |
| PkgbuildObject.PKGBUILD.EachSubPackage | pkg/pkgbuild/pkgbuild.go:645-684 | after the loop over sub-packages the copied fields are those the last body alone would give |

## Left out

- DnfIndex.KeptIsBest: the best candidate is promised only when all candidates of the name can be downloaded; for mixed candidates `DnfIndex.DownloadableIsKeptExactly` says when a downloadable one is kept, not which.
- AptSchedule.ArtifactsAreCoherent: all five fields from one and the same stanza, for concrete architectures and complete stanzas; field by field `AptSchedule.PartFollowsExactly` and `AptSchedule.UrlFollowsExactly` are exact.
- InstallTransaction.PrefixByPackage: and the other lemmas on entries need the names and architectures in the status file to survive printing, as all proper ones do; the states of a run are described without that.
- InstallTransaction.InstallWithOptions: unpacking and scripts may change any file except the status file; a package that ships the status file itself is not modelled.
- Hardlinks.LinkedExactly: needs each inode key to have exactly one entry with data; it speaks of regular entries only.
- BuildRegistry.Registry.Register: takes an identifier not used before; a collision of random identifiers would replace a live session.
- BuildRegistry.Registry.Finish: the new state is a final one, as its comment asks of callers; nothing checks that.
- Pkgbuild.SourcesMatchHashSums: for one kind of checksum; lists of different kinds share a field and are not paired.
- Goroutines, locks and channels: workers parse into private caches, and every registry operation holds the mutex, so the model takes operations one at a time.
- The applying of single stanza fields (pkg/aptcache/parse.go:405-455), number parsing of Size, base URL derivation, decompression.
- The abort of a parse by its callback, and the scanner's limit on line length; a failing read is any failing read.
- White space outside ASCII, and invalid UTF-8.
- Option flags of a PKGBUILD (`processOptions`), the shell parser, expansion of values and the environment.
- Modes, owners, directories, symbolic links and path checks of unpacked files.
- The package database of yap itself: writing it only succeeds or fails.
- Installed-version lookup for script arguments, script texts, configuration files, the linker cache, the dpkg lock.
- Session logs and contexts of builds; a cancellation is a flag.
- Downloads, mirrors, retries, signatures, tar, ar and cpio formats, the rpm database, the apk installed database, containers, the command line.
