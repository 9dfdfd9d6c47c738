# Verification of bino's stateful core

This project models the parts of bino that keep state over time, or that promise something over all inputs, and proves
those promises in Dafny. `dafny verify dfyconfig.toml` checks it.

Objects that bino updates in place are classes here (the lock file, the disk, the render cache, the tree printer, the
plugin state, the plugin runtime, the extracted tree). Their methods are proved against functions on values, and the
main results are lemmas about those functions over every run, every cut or every input.

## What is modelled

- **Registry lock and store** (`Packages`, `Lockfiles`, `Store`, `Closure`, `Recovery`, `RegistrySync`, `Materialize`,
  `LockDrift`, `StoreVerify`, `RegistryCommands`, `Addresses`, `Manifests`, `RegistryRemove`, `RemoveLaws`). The disk is
  a map from (package, path) to bytes and a saved lock, with a budget of effects: a run can be cut, or fail, before
  every single effect, and the removal of a package also half way through its files. The answers of the registry are a
  function of the request and stay the same from one attempt to the next. The digest functions are parameters.
  bino.toml is its text. The editor's patterns and searches work on that text; a match is a cut of it, where the code
  has offsets. The TOML parser is a parameter.
- **Render cache** (`RenderCache`, `LruLaws`, `QueryEscape`, `CacheKeys`, `KeyTexts`, `ServeHandlers`, `EnvExpand`,
  `ExpandLaws`, `EntryParams`, `Markers`, `LayoutTemplates`). The map and the list are those of the cache; keys are
  built as text. Loading and rendering are deterministic functions of the documents and the parameters. Handlers run one
  at a time, as the render mutex makes them.
- **Graphs** (`GraphDeps`, `GraphBoth`, `GraphTree`, `GraphShape`). Any graph, with cycles, repeated and dangling ids.
- **Protocols** (`PreviewPlugins`, `PluginRuntime`, `PluginReports`). The plugin runtime is a step system: scripts
  track, settle and throw at any moment, jobs run in the order they were queued, and frames and timers fire only when
  the queue is empty. A promise may be tracked any number of times.
- **Archives and parsers** (`ArchivePaths`, `ArchiveExtract`, `ArchiveOutcome`, `PointEntries`, `NameFix`). Paths are
  cleaned and joined as Go's filepath package does on Unix. Lower-casing is a parameter that keeps the characters of a
  name.
- `Text`, `Splitting`, `Sequences` and `Sorting` are the shared vocabulary.

## Where the code does not keep a promise

Each of these is stated with its exact condition, or with an input that shows it.

- A package that records two digests for one path and kind never verifies (`StoreVerify.ClashNeverVerifies`); the
  completeness theorems therefore ask for coherent entries.
- `registry install` fetches an entry of an unknown format as a document, and verification then calls it modified
  (`StoreVerify.InstalledAsRecorded`).
- A file that an attempt at a different closure wrote before it was interrupted can be recorded by neither the old lock
  nor the new plan, and a later sync then leaves it as an extra file (`StoreVerify.OtherAttemptLeavesFiles` says exactly
  when, `StoreVerify.LeftoverIsExtra` is an instance). `Recovery.InterruptedSyncRecovers` is about attempts at one
  closure.
- Naming a surviving package twice in `registry remove` reports it twice (`RemoveLaws.ReportedOnceIff`,
  `RemoveLaws.RepeatedSurvivorIsReportedTwice`), and a second direct entry of a removed name causes drift
  (`RemoveLaws.RemoveKeepsDriftFree`).
- A removal reports success and leaves the declaration, which is drift, when the editor of bino.toml does not find it: a
  drift-free project is so again if and only if every removed name is found (`RemoveLaws.RemovedProjectHasNoDrift`). An
  inline table and a table with carriage returns are inputs (`RemoveLaws.InlineAndCarriageReturnDrift`); a table of
  single lines always keeps the promise (`RemoveLaws.PlainProjectHasNoDrift`).
- A removal that fails after it saved the lock leaves declarations without lock entries, which is drift
  (`RemoveLaws.FailureAfterSavingLeavesDrift`).
- A route path can share its cache key with a shorter path exactly when it contains " layoutPages:"
  (`CacheKeys.SharesWithShorterIff`, and `CacheKeys.TaggedPathCollides` for an input); `Site.Configured` excludes it.
- Escapes and inline defaults of query references do not survive the marker templates, and nothing else is lost
  (`Markers.ComesBackExactlyIf`, `Markers.EscapedReferenceRevives`).
- Direction "both" of the graph query can lose edges on a cyclic graph (`GraphBoth.AvoidingLosesNothingIff`,
  `GraphBoth.CycleLosesEdges`, and `GraphBoth.GraphQuery` for what it finds on any graph).
- A file cap of the largest 64-bit integer makes the reader's limit wrap around, and files come out empty without an
  error (`ArchiveExtract.SuccessIsWhole`).
- A destination that ends in ".." accepts targets above it, and "/" and "." accept only themselves
  (`ArchivePaths.GuardContains`, `ArchivePaths.SanitizeIsExact`).

## Model

| member | source | states |
|---|---|---|
| Packages.StoreFileInjective | internal/registry/store.go:41-52 | the store path of a file determines its package and its path, so packages never share a file |
| Packages.ParsedExactly | internal/registry/ref.go:33-44 | a name parses in one way, as two tokens between "@" and "/" |
| Packages.GrammarExactly | internal/registry/ref.go:15-19 | the characters of a name token, and of a path segment in store.go and tree.go: letters and digits, with signs only inside |
| Packages.TreePathExactly | internal/registry/tree.go:58-76 | a package file is one valid segment, or two with a slash between them, without a double dot |
| Lockfiles.Lockfile.Upsert | internal/registry/lockfile.go:167-173 | the first entry of the name is replaced, or the entry is appended; distinct names stay distinct |
| Lockfiles.Lockfile.Remove | internal/registry/lockfile.go:176-184 | the first entry of the name goes, the rest keeps its order, and the result says whether one existed |
| Lockfiles.Lockfile.ClearDirect | internal/cli/registry_remove.go:99-105 | the write through the pointer that Get hands out: only the flag of the first entry changes |
| Lockfiles.SavedElements | internal/registry/lockfile.go:134-154 | the saved lock holds exactly the given entries, each with its file list in path order |
| Lockfiles.SavedIgnoresOrder | internal/registry/lockfile.go:134-154 | two lists of the same entries with distinct names are saved as the same file |
| Lockfiles.NormalizeKeepsFiles | internal/registry/lockfile.go:134-154 | saving changes neither the files nor the paths an entry records |
| Store.Disk.RemovePackage | internal/registry/store.go:129-145 | all files of one package are deleted; a failure half way leaves any of them behind and changes nothing else |
| Store.Disk.RemoveTreeFile | internal/registry/store.go:222-236 | one file is deleted, or nothing changes |
| Store.Disk.WriteTreeFile | internal/registry/store.go:171-183 | one file is replaced whole; an interrupted write shows the old file and at most leaves a temporary file behind |
| Store.Disk.SaveLockfile | internal/registry/lockfile.go:134-154 | the lock is replaced whole or not at all |
| Store.TempIsResidue | internal/registry/store.go:290-324 | the name of every temporary file is one that verification skips |
| Store.ResidueIsTemporary | internal/cli/registry_query.go:258-266 | in any directory the residue of a write is a file whose name begins with "." and holds ".tmp-", and no other |
| Store.SettledRun | internal/cli/registry.go:374-415 | when all steps agree on a place, it holds the old or the agreed content at every moment and the agreed content once touched |
| Closure.FinalLockIsClosure | internal/cli/registry.go:374-415 | after sweeping and upserting, the lock is saved as exactly the entries of the plan, for every old lock of distinct names |
| Closure.StepsMeetTargets | internal/cli/registry.go:374-438 | all removes and writes of one run agree on what a place must hold; no step touches a file that neither the old lock nor the plan records in a surviving package |
| Closure.TargetsAreMet | internal/cli/registry.go:374-438 | every departed file and every file with a fetched body is touched by some step |
| Recovery.CutIsProgress | internal/cli/registry.go:374-415 | however the steps are cut, between two of them or inside one, the old lock is still saved, each recorded file holds what it held or content that verifies, each departed one is as it was or gone, and foreign files are untouched |
| Recovery.CutKeepsLock | internal/cli/registry.go:374-415 | no step before the last one changes the saved lock |
| Recovery.RecordedIsOnDisk | internal/cli/registry.go:204-266 | after all steps every file an entry records is on disk and verifies: written, or found verifying when it was fetched |
| Recovery.CompleteIsSynced | internal/cli/registry.go:374-456 | a run that ends over verified plans leaves every recorded file verifying and every departed file gone |
| Recovery.CompleteSavesClosure | internal/cli/registry.go:374-415 | the lock that a complete run saves is the closure, whatever the lock was before |
| Recovery.ProgressComposes | internal/cli/registry.go:374-415 | two interrupted runs in a row are still progress as seen from the first start |
| Recovery.ProgressThenSynced | internal/cli/registry.go:374-415 | a run that completes after an interrupted one is complete as seen from the first start |
| Recovery.InterruptedSyncRecovers | internal/cli/registry.go:374-456 | any number of interrupted attempts followed by a complete one end as one complete run judged from the start, and the lock was the old one until then |
| Recovery.RecoveredMatchesUninterrupted | internal/cli/registry.go:374-456 | two finished runs from one start have the same files; files outside the closure have the same content, recorded ones the same digest |
| RegistrySync.Download | internal/cli/registry.go:123-183 | a body is accepted if and only if the registry sends it, it verifies against the expected digest, and its ETag is empty or equals that digest |
| RegistrySync.FetchedOverItsRoute | internal/cli/registry_install.go:156-181 | a file of a tree comes over the file route, and of any other package over the document or resource route, each with its digest rule |
| RegistrySync.FetchPackage | internal/cli/registry.go:204-266 | fetching computes the specified plan or none, and changes nothing on disk |
| RegistrySync.FetchFiles | internal/cli/registry_install.go:141-181 | the same for a locked package of any format, file by file |
| RegistrySync.FetchDocument | internal/cli/registry.go:204-266 | the same for a package of one document with resources |
| RegistrySync.PlanWhen | internal/cli/registry.go:204-266 | there is a plan exactly when every file verifies on disk or downloads and, for a document, the resources can be listed; its entry is the one the answers determine, every file verifies, and exactly the files that do not verify on disk, and the document, are downloaded |
| RegistrySync.LockedPlanWhen | internal/cli/registry_install.go:141-181 | for a locked entry there is a plan exactly when every recorded file verifies on disk or downloads, and only those that do not verify on disk are downloaded |
| RegistrySync.SavedEntryRecords | internal/cli/registry.go:190-266 | field by field: the saved entry has the name, version, tag, digest, direct flag and dependencies that were resolved, with the files of a tree, or one document and the listed resources |
| RegistrySync.SortedListing | internal/cli/registry.go:309-332 | sorting the resource list of an entry keeps exactly the files the registry lists |
| RegistryCommands.FetchClosure | internal/cli/registry.go:443-456 | fetching the closure computes the specified plans, or none when one package has none, and changes nothing on disk |
| RegistryCommands.PlansWhen | internal/cli/registry.go:443-456 | the closure can be fetched exactly when each package can |
| RegistryCommands.Sync | internal/cli/registry.go:443-456 | succeeds exactly when everything can be fetched and every step is accepted and within the effects left; a failed fetch changes nothing, any other failure leaves progress, success leaves the closure on disk and a lock with one entry for each package that records what was resolved |
| RegistryCommands.SyncedLockHasNoDrift | internal/cli/registry.go:443-456 | when the resolved closure answers the declarations, "latest" for an empty reference, the lock that a sync saves has no drift |
| RegistryCommands.SyncStaysPossible | internal/cli/registry.go:443-456 | whatever progress interrupted attempts made, a sync that could have completed from the start still completes with the same effects |
| RegistryCommands.SyncUntilDone | internal/cli/registry.go:443-456 | repeated attempts, each cut after any number of effects: the outcome is judged from the first start, and none completes only if none of those budgets would have sufficed at the start |
| Addresses.StepsAreAddressable | internal/registry/store.go:41-167 | valid names and paths in the old lock and the closure make every step one the store accepts |
| Addresses.SyncCompletesWhen | internal/cli/registry.go:443-456 | over such entries a sync completes if and only if everything can be fetched and the run is not cut before its last step |
| RegistryCommands.Install | internal/cli/registry_install.go:50-94 | each outcome exactly when it applies: nothing declared, no lock, drift, a package that cannot be fetched, success, and otherwise interrupted; never rewrites the lock; changes recorded files only, each to content that verifies; when it ends every locked file verifies under the format it is fetched as |
| RegistryCommands.LockedPlansWhen | internal/cli/registry_install.go:141-181 | the lock can be fetched exactly when every recorded file verifies on disk or downloads |
| RegistryCommands.SameSteps | internal/cli/registry_install.go:141-154 | the format an entry is fetched under changes none of the steps |
| Materialize.PruneDepartedFiles | internal/cli/registry.go:421-438 | exactly the files the old entry records and the new one does not are deleted, in order, until a failure |
| Materialize.WriteBodies | internal/cli/registry.go:399-404 | the fetched bodies are written in the order of the file list, until a failure |
| Materialize.MaterializePackage | internal/cli/registry.go:392-408 | one package: prune, then write |
| Materialize.Sweep | internal/cli/registry.go:374-391 | exactly the locked packages outside the plan are removed from disk and from the lock, until a failure |
| Materialize.WriteClosure | internal/cli/registry.go:392-408 | package by package: prune, write, record the entry; the lock in memory follows |
| Materialize.Materialize | internal/cli/registry.go:374-415 | the steps performed are a prefix of the specified ones, all of them exactly on success, and the lock is saved last |
| Materialize.PerformedWhen | internal/cli/registry.go:374-415 | a run succeeds exactly when every step is accepted and the effects cover them all |
| LockDrift.CheckLockDrift | internal/cli/registry_install.go:98-135 | returns nothing exactly when the lock is drift-free; a reported drift is justified by what it names |
| LockDrift.EmptyFollowsLatest | internal/cli/registry_install.go:98-135 | a declaration without a reference follows the tag "latest" |
| StoreVerify.CheckRecorded | internal/cli/registry_query.go:226-241 | finds a problem exactly when a recorded file is missing or differs, and reports the first |
| StoreVerify.CheckExtra | internal/cli/registry_query.go:242-255 | true exactly when a file in the package directory is neither recorded nor write residue |
| StoreVerify.VerifyPackage | internal/cli/registry_query.go:226-266 | OK exactly when every recorded file verifies and nothing else is there; MISSING and MODIFIED before EXTRA |
| StoreVerify.SyncedPackageVerifies | internal/cli/registry_query.go:226-266 | after a finished run every recorded file verifies, and the verdict is INVALID LOCK for an entry without files, EXTRA exactly when the directory held a file that neither the old lock nor the closure records, and OK otherwise |
| StoreVerify.OtherAttemptLeavesFiles | internal/cli/registry.go:374-415 | after an attempt at one closure that was cut between steps or inside one, and a complete run to another, a package has an extra file exactly when the attempt wrote one that neither the second closure nor the old lock records, or one was there and the attempt left it |
| StoreVerify.LeftoverIsExtra | internal/cli/registry.go:374-415 | an instance: a package with another file list in each closure is EXTRA after the second run, for any two bodies |
| StoreVerify.ClashNeverVerifies | internal/cli/registry_query.go:226-266 | an entry with two digests for one path and kind verifies for no content at all |
| StoreVerify.InstalledAsRecorded | internal/cli/registry_install.go:161-181 | what install leaves verifies under the recorded format exactly when that format is known or the entry has no document |
| RegistryRemove.Marker.Mark | internal/cli/registry_remove.go:75-86 | terminates on cycles and marks what is reachable, keeping earlier marks |
| RegistryRemove.MarkAll | internal/cli/registry_remove.go:74-91 | the marked names are exactly the names reachable from the remaining declarations |
| RegistryRemove.SweepUnreachable | internal/cli/registry_remove.go:93-103 | a prefix of the specified removals, with its reason on failure; on success exactly the unmarked packages are gone from disk and lock, reported in lock order |
| RegistryRemove.DemoteSurvivors | internal/cli/registry_remove.go:104-111 | clears the direct flag of each surviving argument and reports it |
| RegistryRemove.DemoteAllAt | internal/cli/registry_remove.go:104-111 | demoting changes the flag of the first entry of each named package and nothing else |
| RegistryRemove.RemoveFromLock | internal/cli/registry_remove.go:93-115 | sweep, demote and save succeed exactly when the store accepts every removal and the effects cover them and the save; on failure the lock is the old one and only files of swept packages are missing |
| RegistryRemove.Config.RemoveDependency | internal/registry/manifest.go:48-98 | the line the editor finds goes with one write, if the edited text parses without the name; a name it finds no line for is no failure and changes nothing, declared or not |
| RegistryRemove.DropDeclarations | internal/cli/registry_remove.go:116-120 | every named edit is done exactly when each is accepted and the effects cover the lines found; otherwise the edits before the first that fails are done |
| Manifests.EditIsOneLine | internal/registry/manifest.go:48-69 | the editor leaves the text as it is when the first dependencies table has no line for the quoted key, and otherwise takes out the first such line and leaves every other line as it is, in order |
| Manifests.EditChangesIff | internal/registry/manifest.go:76-81 | the text stays the same, and is not parsed again, exactly when no line is found |
| Manifests.OtherKeysFound | internal/registry/manifest.go:48-69 | taking out the line of one name makes no other name found, and none lost |
| Manifests.DeclaredAfter | internal/registry/manifest.go:48-98 | for declarations on lines of their own: after any list of removals exactly the names found in the first text are gone, at one write each |
| Manifests.PlainIsLineByLine | internal/registry/manifest.go:12-33 | in a table of single lines every declaration is found, and every removal takes out its declaration and nothing else, by an independent reading of such tables |
| Manifests.CarriageReturnHides | internal/registry/manifest.go:14-15 | a header line with a carriage return at its end is a header if and only if a comment follows it |
| Manifests.CarriageReturnsNothingFound | internal/registry/manifest.go:14-15 | a text whose lines end in carriage returns, without a comment, has no declaration that is found |
| Manifests.WithoutTableNothingFound | internal/registry/manifest.go:48-54 | a text without a table has no declaration that is found |
| RegistryRemove.CheckArgs | internal/cli/registry_remove.go:48-62 | all arguments are checked before anything changes; refused exactly when one is not the valid name of a declared package |
| RegistryRemove.ParsedSpecExactly | internal/registry/ref.go:46-68 | a spec is a valid name, or one with "@" and a version or a tag behind it, and is read in one way |
| RegistryRemove.RemovableExactly | internal/cli/registry_remove.go:48-62 | an argument is accepted if and only if it is the valid name of a declared package, without a version |
| RemoveLaws.RemovableNames | internal/cli/registry_remove.go:48-62 | arguments that pass are the names of declarations, and may stand between either quotes |
| RegistryRemove.Remove | internal/cli/registry_remove.go:48-122 | the whole command: refused exactly for a bad argument, and then nothing changed; removed exactly when the store accepts every removal, every edit of bino.toml is accepted and the effects cover them all, with the specified lock, store, report and text; on failure what is left, before and after the lock is saved |
| RemoveLaws.SweepIsExact | internal/cli/registry_remove.go:69-112 | the lock keeps exactly the packages reachable from the declarations that are not removed, and the store exactly their files |
| RemoveLaws.NoDanglingDependency | internal/cli/registry_remove.go:69-112 | no kept entry depends on a package that was locked and is now swept |
| RemoveLaws.ReportedOnceIff | internal/cli/registry_remove.go:93-111 | every swept or demoted package is reported; once each if and only if no argument that is reachable without the removed declarations is named twice |
| RemoveLaws.ReportIsExact | internal/cli/registry_remove.go:93-111 | the report: each swept package with its version, tag and flag and no version afterwards, each removed one that survives with its version before and after and no flag, and nothing else |
| RemoveLaws.RepeatedSurvivorIsReportedTwice | internal/cli/registry_remove.go:93-111 | an input that is reported twice: two declared packages, the first depending on the second, and the second named twice |
| RemoveLaws.RemoveKeepsDriftFree | internal/cli/registry_remove.go:104-121 | a drift-free project stays drift-free if and only if no removed name has a second direct entry that stays |
| RemoveLaws.SavedStaysDriftFree | internal/registry/lockfile.go:134-154 | saving a lock of distinct names causes no drift |
| RemoveLaws.RemovedProjectHasNoDrift | internal/cli/registry_remove.go:48-122 | for declarations on lines of their own and distinct names in the lock, a removal takes a drift-free project to a drift-free one if and only if the editor finds every removed name |
| RemoveLaws.DriftAfterRemoval | internal/cli/registry_remove.go:69-120 | whatever bino.toml then declares, a project that was drift-free is so after the lock is saved if and only if exactly the remaining names are declared, each with a reference that the locked entry follows |
| RemoveLaws.PlainProjectHasNoDrift | internal/cli/registry_remove.go:48-122 | with a table of blank lines, comments and single-line declarations, as the editor writes it, a removal always takes exactly the removed declarations out and keeps the project drift-free |
| RemoveLaws.NothingFoundDrifts | internal/registry/manifest.go:48-81 | when the editor finds none of the removed declarations, it writes nothing, reports no failure, and leaves drift |
| RemoveLaws.InlineAndCarriageReturnDrift | internal/registry/manifest_test.go:138-148 | two inputs: the inline table of the tests, and a table whose lines end in a carriage return and a newline |
| RemoveLaws.FailureAfterSavingLeavesDrift | internal/cli/registry_remove.go:113-120 | for declarations on lines of their own, a failure between saving the lock and removing the last declaration always leaves the project drifted |
| RemoveLaws.FailureBeforeSavingKeepsLock | internal/cli/registry_remove.go:93-115 | a failure before the lock is saved leaves a project drift-free exactly when it was |
| RenderCache.Cache.Get | internal/cli/serve.go:692-702 | answers a hit and makes it the most recently used entry; a miss changes nothing |
| RenderCache.Cache.Set | internal/cli/serve.go:704-723 | replaces the page of a resident key or adds one and evicts the least recently used |
| RenderCache.Cache.EvictOverflow | internal/cli/serve.go:704-723 | map and list agree one to one again and hold at most 100 entries |
| RenderCache.Cache.Data | internal/cli/serve.go:725-737 | answers exactly when a resident page emitted the payload, from the most recently used such page |
| LruLaws.ByLastUseIsOrder | internal/cli/serve.go:658-723 | the specification: exactly the used keys, once each, in the order of last use |
| LruLaws.RunCache | internal/cli/serve.go:658-723 | running any list of operations on a cache object gives the contents and answers of the specification |
| LruLaws.ResidentKeys | internal/cli/serve.go:658-723 | after any run the resident keys are the last 100 distinct keys that a Set or a hitting Get used, in use order |
| LruLaws.ResidentPages | internal/cli/serve.go:658-723 | after any run each resident page is the last one set for its key |
| LruLaws.DataServedWhileResident | internal/cli/serve.go:725-737 | after any run a payload is served exactly while a page that emitted it is resident |
| QueryEscape.RoundTrip | internal/cli/serve.go:1220-1241 | percent-encoding of section 2.1 of RFC 3986, with "+" for a space, is undone by decoding |
| QueryEscape.Injective | internal/cli/serve.go:1220-1241 | different values have different escapes |
| QueryEscape.EscapedAlphabet | internal/cli/serve.go:1220-1241 | an escaped value holds no separator of a key |
| CacheKeys.SortedKeys | internal/cli/serve.go:1225-1233 | the sorted key list is one and the same for every order a map is visited in |
| CacheKeys.BuildCacheKey | internal/cli/serve.go:1220-1241 | the artefact key is a function of name and map |
| CacheKeys.BuildLayoutPagesCacheKey | internal/cli/serve.go:1179-1215 | the layout key is a function of path, page list and map |
| CacheKeys.BuildRefKey | internal/cli/serve.go:1179-1203 | the text of one page entry does not depend on the order of its params |
| CacheKeys.SortedTextsUnique | internal/cli/serve.go:1179-1203 | sorted texts depend on the multiset of texts only |
| KeyTexts.ArtefactKeyText | internal/cli/serve.go:1220-1241 | two params written out: the name, and each param behind a "?" as name, "=" and escaped value, in text order; the name alone without any |
| KeyTexts.LayoutKeyText | internal/cli/serve.go:1179-1215 | two params of a layout written out: behind one "?", with "&" between them, after the path and the tagged page text |
| KeyTexts.PagesTextOfTwo | internal/cli/serve.go:1179-1203 | two entries written out: params behind "#" with "," between them, entries with ";" between them, in text order |
| KeyTexts.PlainValueStays | internal/cli/serve.go:1220-1241 | a value of unreserved characters is its own escape, and a space is "+" |
| KeyTexts.OtherByteIsPercent | internal/cli/serve.go:1220-1241 | any other byte is "%" and two upper-case hexadecimal digits |
| CacheKeys.ArtefactKeyInjective | internal/cli/serve.go:1220-1241 | equal artefact keys mean equal names and equal maps, for names free of separators |
| CacheKeys.LayoutKeyInjective | internal/cli/serve.go:1179-1215 | equal layout keys mean equal paths and equal maps, for paths without the tag |
| CacheKeys.KindsApart | internal/cli/serve.go:889-892 | no artefact key equals a layout key |
| CacheKeys.TagMovesOver | internal/cli/serve.go:1179-1215 | a tag in the path reads as a tag behind a shorter path: for all paths and page texts the two keys are equal |
| CacheKeys.SharesWithShorterIff | internal/cli/serve.go:1179-1215 | a path can share a key with a shorter one if and only if it contains the tag |
| CacheKeys.TaggedPathCollides | internal/cli/serve.go:1179-1215 | two routes with valid page names that share a key: a param value of the one and the path of the other hold the tag |
| ServeHandlers.SameKeySamePage | internal/cli/serve.go:740-963 | two requests with the same key render the same page |
| ServeHandlers.ServeArtefact | internal/cli/serve.go:740-852 | with any sound cache the answer is the one without a cache, and the cache stays sound |
| ServeHandlers.ServeLayout | internal/cli/serve.go:855-963 | the same for a layoutPages route |
| ServeHandlers.ServeAll | internal/cli/serve.go:456-504 | for every sequence of requests each page is answered as told case by case from the documents, the validation and the rendering, without a cache |
| ServeHandlers.UncachedAnswers | internal/cli/serve.go:740-963 | the answer without a cache: startup documents without params, a reload with them, and each failure |
| EnvExpand.ProbeDecides | internal/cli/serve.go:1150-1153 | a text that expands to itself without variables expands to itself under every lookup, and misses none; and only such a text does |
| EnvExpand.FixedIsInert | internal/report/config/envexpand.go:71-114 | such a text has no escape, no placeholder and no reference |
| EnvExpand.InertExpandsToItself | internal/report/config/envexpand.go:71-114 | a text without these is expanded to itself by every lookup |
| EnvExpand.NothingMissing | internal/report/config/envexpand.go:71-114 | no variable is reported missing if and only if each reference has a value, or a default |
| EnvExpand.MissingExactly | internal/report/config/envexpand.go:71-114 | the missing names are exactly those of references without value and default, once each |
| ExpandLaws.PlainTextStays | internal/report/config/envexpand.go:58-114 | text without "$", backslash and NUL stays, whatever follows it |
| ExpandLaws.ReferenceGivesWay | internal/report/config/envexpand.go:58-114 | a reference gives way to its value, without one to its default, without both to nothing, and is reported missing exactly then |
| ExpandLaws.EscapeGivesWay | internal/report/config/envexpand.go:58-114 | an escape gives way to "${" and is not read as a reference |
| ExpandLaws.NameExactly | internal/report/config/envexpand.go:12-12 | which names a reference can have |
| ExpandLaws.OneReferenceResolves | internal/cli/serve.go:1110-1147 | a template that is one reference: its value, else the startup value, each only if the page selector leaves it alone |
| EntryParams.ResolvedIsInert | internal/cli/serve.go:1110-1147 | every value written for a page entry is a fixed point of expansion, whatever environment or request |
| EntryParams.ResolveEntry | internal/cli/serve.go:1110-1147 | one entry: its page name stays, its keys are those the template and the startup entry give, and each value is the one the rules choose |
| EntryParams.ResolveLayoutPageParams | internal/cli/serve.go:1110-1147 | names, count and order are the startup list, entry by entry; it is called with one template per entry, which RequestEntries establishes for the loaded templates |
| LayoutTemplates.LoadTemplates | internal/cli/serve.go:974-1040 | no templates when no entry has params, the load fails or a route has another number of entries; otherwise each route has the loaded entries, restored, one per startup entry |
| LayoutTemplates.QueryNamesExactly | internal/cli/serve.go:974-993 | the names markers stand for: each query param of a route, and each with "_LABEL" behind it |
| LayoutTemplates.RequestEntries | internal/cli/serve.go:974-1147 | loading and resolving for one request, with no demand on the templates: every index is in range, names, count and order are the startup list, every value written is a fixed point of expansion, and one reference takes the value of the request before that of the environment before that of startup |
| LayoutTemplates.RestoreIgnoresOrder | internal/cli/serve.go:974-1040 | the restored text does not depend on the order in which routes and names are visited |
| Markers.MarkersPrefixFree | internal/cli/serve.go:974-993 | no marker begins another, because names hold no dot |
| Markers.StemLiesInside | internal/cli/serve.go:974-993 | the stem does not overlap itself, so a marker cannot begin inside other text |
| Markers.MarkerRoundTrip | internal/cli/serve.go:974-1040 | replacing references by markers and running the left-to-right replacer gives the references back |
| Markers.LoadThenRestore | internal/cli/serve.go:974-1040 | loading a text with markers and restoring it gives its query references back and the other references resolved |
| Markers.ComesBackExactlyIf | internal/cli/serve.go:974-1040 | for any text of query references without the stem: loading and restoring gives it back if and only if it has no escape and no inline default |
| Markers.RestoredExactlyWithoutDefaults | internal/cli/serve.go:974-1040 | the template of a text of query references is written as the text itself if and only if none has an inline default |
| Markers.EscapedReferenceRevives | internal/cli/serve.go:974-1040 | an escaped query reference comes back as a live one |
| GraphDeps.Expand | internal/cli/lsp.go:700-730 | one expansion: every DependsOn occurrence is an edge, every new id is visited and queued once |
| GraphDeps.Traverse | internal/cli/lsp.go:672-732 | for any graph and any visited set: exactly the ids nearer than the limit are expanded, once each, and exactly those within it visited |
| GraphBoth.BuildReverse | internal/cli/lsp.go:628-633 | every DependsOn occurrence is listed once at the other end |
| GraphBoth.AvoidingLosesNothingIff | internal/cli/lsp.go:635-648 | the second pass over a shared visited set expands, and so records, all it would alone if and only if the first pass visited none of the ids it expands but the root |
| GraphBoth.NoNodeLost | internal/cli/lsp.go:635-648 | no node of either pass is lost when nothing is lost at the expansions |
| GraphBoth.AcyclicBothIsExact | internal/cli/lsp.go:635-648 | on an acyclic graph direction both records what two separate passes record |
| GraphBoth.CycleLosesEdges | internal/cli/lsp.go:635-648 | a graph with a cycle for which the second pass loses an edge |
| GraphBoth.GraphQuery | internal/cli/lsp.go:628-648 | the query in each direction on any graph: expanded ids, visited ids and edges; in direction both the second pass is exact if and only if the first one visited none of its expanded ids but the root |
| GraphTree.SortedChildren | internal/cli/graph.go:225-244 | exactly the existing dependencies, with repetition, in order of kind and name |
| GraphTree.Printer.PrintChildren | internal/cli/graph.go:163-187 | terminates on every graph, restores the stack, and prints exactly the extensions of the path, depth first, with the prefixes of their level |
| GraphTree.ExtensionsSplit | internal/cli/graph.go:163-187 | the paths under a child are the child itself and, unless it repeats, the paths under its children |
| GraphTree.PrintTree | internal/cli/graph.go:150-187 | the lines are the depth-first tree with sorted children; they show every extension of the root that is simple but for a last repeat, and mark exactly the repeats |
| GraphTree.SimpleIsListed | internal/cli/graph.go:163-187 | every simple path from the root is among those lines, unmarked |
| GraphShape.TreeShaped | internal/cli/graph.go:163-187 | from the lines alone: every line is at the outer prefix or hangs on the nearest one above it with a level less, whose prefix it continues with a bar, or with blanks below a last child |
| PreviewPlugins.Plugins.ReloadIfChanged | internal/cli/preview_plugins.go:33-53 | what a reload does to the error and to the stale flag in each case |
| PreviewPlugins.Plugins.Refreshed | internal/cli/preview_plugins.go:59-65 | a page reload is broadcast exactly when the plugins were stale |
| PreviewPlugins.RefreshInOrder | internal/cli/preview.go:384-415 | the events of one refresh, written out for each outcome in their order |
| PreviewPlugins.DoRefresh | internal/cli/preview.go:384-415 | one refresh: new state and events in order, for every outcome; it fails exactly when it is cancelled, the plugins have failed, or the render does |
| PreviewPlugins.RunPreview | internal/cli/preview.go:384-415 | a sequence of refreshes follows the specification |
| PreviewPlugins.EveryRunConforms | internal/cli/preview_plugins.go:33-65 | over all runs: no render after a failed reload, full renders until one succeeds after a good one, and the page reload exactly then, never more often than reloads |
| PluginRuntime.Runtime.Track | internal/chrome/plugin-runtime.js:30-37 | the promise is pending and its two callbacks wait on it, or are queued when it is settled |
| PluginRuntime.Runtime.OnError | internal/chrome/plugin-runtime.js:13-21 | an error of a plugin script is a failure, any other error is not |
| PluginRuntime.Runtime.HeadOfLoop | internal/chrome/plugin-runtime.js:39-43 | waits for everything that is pending now, or begins a quiet period with the count of calls so far |
| PluginRuntime.Runtime.GoOn | internal/chrome/plugin-runtime.js:39-48 | goes on after an await: three waits make a quiet period, and it returns only if nothing was tracked and nothing is pending |
| PluginRuntime.Runtime.RunCallback | internal/chrome/plugin-runtime.js:34-36 | the rejection handler, then the deletion, as queued jobs (section 27.2 of ECMA-262) |
| PluginRuntime.Runtime.Take | internal/chrome/plugin-runtime.js:26-53 | each step of the page and its surroundings |
| PluginRuntime.RunPage | internal/chrome/plugin-runtime.js:26-53 | the object goes through the states of the step system |
| PluginRuntime.RunInv | internal/chrome/plugin-runtime.js:26-53 | what every interleaving keeps: where each callback is, what is pending, what has been reported, what wakes the loop |
| PluginRuntime.SettledReportsEverything | internal/chrome/plugin-runtime.js:39-50 | when settled() returns every tracked promise is settled, and the failures are the page errors and one entry for each track call of a rejected promise |
| PluginReports.FailuresCounted | internal/chrome/plugin-runtime.js:13-50 | by the steps of the page alone: a failure is returned once for each error of a "/plugins/" script and once for each track call of a promise that is rejected first, with the element name, its id and the message of the reason, and no other is |
| PluginReports.TrackedHasSettled | internal/chrome/plugin-runtime.js:39-50 | when settled() returns every tracked promise has been settled by a step |
| PluginRuntime.QuietBeforeReturn | internal/chrome/plugin-runtime.js:41-48 | when it returns, two frames and a timer have fired since the quiet period began, nothing was tracked since then and nothing is pending |
| PluginRuntime.SettledReturns | internal/chrome/plugin-runtime.js:39-48 | it never hangs: once every tracked promise is settled, whatever is queued, jobs, frames and timers alone make it return |
| PluginRuntime.JobShrinks | internal/chrome/plugin-runtime.js:34-48 | with every tracked promise settled each job brings the queue nearer to empty: fewer callbacks to run, or as many and nearer |
| ArchivePaths.JoinFollowsName | internal/archive/zip.go:234-238 | the joined path is reached by following the name, part by part, from the cleaned destination |
| ArchivePaths.SanitizeIsExact | internal/archive/zip.go:234-244 | for every destination and name the two string tests accept exactly the targets whose parts extend those of the destination, and "/" and "." only themselves; an empty destination with an empty name is refused |
| ArchivePaths.GuardContains | internal/archive/zip.go:234-244 | every accepted target stays below the destination if and only if that does not end in ".."; an absolute one never does |
| ArchivePaths.PlainNamesAccepted | internal/archive/zip.go:234-244 | a name of plain parts is accepted and names those parts below the destination |
| ArchiveExtract.DetectCommonPrefix | internal/archive/zip.go:161-177 | the one directory every name with a slash begins with, and nothing exactly when there is none or there are two |
| ArchiveExtract.TopBegins | internal/archive/zip.go:161-177 | the detected directory is a prefix of the name it was taken from |
| ArchiveExtract.Tree.MkdirAll | internal/archive/zip.go:113-124 | makes the directory and all above it, or, on a fault, the levels before the fault |
| ArchiveExtract.LevelsExactly | internal/archive/zip.go:113-124 | the levels of a path are the paths it goes on from, and itself |
| ArchiveExtract.Tree.ExtractFile | internal/archive/zip.go:182-224 | the bytes written, their count and the error, for every fault |
| ArchiveExtract.ExtractEntry | internal/archive/zip.go:91-141 | one round of the loop: every check in order, counters and tree |
| ArchiveExtract.Extract | internal/archive/zip.go:69-144 | the whole extraction follows the specification |
| ArchiveExtract.SuccessWithinLimits | internal/archive/zip.go:91-141 | an untrusted extraction that succeeds kept to the three caps and wrote what it counted |
| ArchiveExtract.WrittenIsBounded | internal/archive/zip.go:91-141 | on any outcome at most the total cap, one file cap and one byte are written |
| ArchiveExtract.SuccessIsExact | internal/archive/zip.go:91-141 | after success every path holds the bytes of its last entry or what it held before, and the directories made are exactly those the counted entries need and all above them |
| ArchiveExtract.SuccessIsWhole | internal/archive/zip.go:182-224 | after success every file is whole if and only if the file cap leaves room for one more byte in 64 bits, or all files are empty |
| ArchiveExtract.StaysInDestination | internal/archive/zip.go:91-141 | on any outcome no file outside the destination is written, and no directory outside is made but those above the destination |
| ArchiveExtract.ExtractIsSafe | internal/archive/zip.go:69-144 | these bounds for the whole command, with the prefix to strip |
| ArchiveOutcome.ExtractionSucceedsIff | internal/archive/zip.go:69-144 | an extraction succeeds if and only if the destination can be made, the strip mode is known, every counted entry is of an admitted kind, fits the destination, has no fault that applies and keeps to the file cap, and all keep to the caps of entries and bytes |
| ArchiveOutcome.ExtractionFailsIff | internal/archive/zip.go:69-144 | it fails with an error if and only if the destination, the strip mode or the first entry that is not accepted gives that error |
| ArchiveOutcome.EntryGives | internal/archive/zip.go:91-141 | one round: which condition of an entry gives which error |
| ArchiveOutcome.StrippedName | internal/archive/zip.go:92-95 | the prefix is stripped from a name that has it, and an entry is skipped exactly when nothing is left |
| PointEntries.SplitPointEntries | internal/cli/add_annotation.go:255-267 | the loop follows the specification |
| PointEntries.RoundTrip | internal/cli/add_annotation.go:253-267 | splitting the comma join of a list returns the list if and only if its entries are well formed |
| PointEntries.SplitTwice | internal/cli/add_annotation.go:253-267 | every result is well formed, and joining and splitting it again changes nothing |
| PointEntries.PartsKept | internal/cli/add_annotation.go:253-267 | the parts that are not blank are all kept, in order, and nothing else |
| NameFix.SuggestNameFix | internal/cli/add.go:290-341 | the builder loop and the steps around it follow the specification |
| NameFix.ValidateName | internal/cli/add.go:262-286 | each verdict in the order of the tests |
| NameFix.AcceptedExactly | internal/cli/add.go:262-286 | a name is accepted if and only if the pattern matches it: the length test and the reserved prefix exclude nothing more |
| NameFix.FixIsAccepted | internal/cli/add.go:290-341 | for any non-empty text the fix is accepted by the validator, has no doubled underscore, and ends in one only as "ds_" |
| NameFix.InvalidSuggests | internal/cli/add.go:277-283 | an invalid name is always answered with a suggestion: the message without one is never used |
| NameFix.FixedExactly | internal/cli/add.go:290-341 | the names left as they are: valid, without a doubled underscore or one at the end |
| NameFix.FixedAgain | internal/cli/add.go:290-341 | a second fix changes nothing if and only if the first is not "ds_" |
| NameFix.FixKeepsText | internal/cli/add.go:290-341 | no letter or digit is lost, invented or moved, except at the end of a name cut to length |
| NameFix.SeparatorBetweenWords | internal/cli/add.go:290-341 | "-", ".", "_" or a space between two words becomes one underscore |
| NameFix.NothingBetweenWords | internal/cli/add.go:290-341 | any other character between two words that is no letter or digit in lower case is dropped |

## Left out

- ArchiveExtract.Extract: does not model symlink resolution: whether a parent directory resolves outside is an input of each entry, as are all other faults of the operating system; file modes and flags are not modelled.
- ArchiveExtract.WrittenIsBounded: the running total is a natural number; 2^63 bytes would have to reach the disk before the 64-bit counter could wrap.
- RegistryCommands.Install: the theorem about what it leaves asks for distinct names and coherent entries in the lock, which a lock saved by bino over coherent entries has; a hand-edited lock may not.
- RegistryCommands.SyncUntilDone: asks for distinct names and coherent entries in the closure, and for a registry that answers every attempt alike; without coherent entries no run can leave every recorded file verifying (`StoreVerify.ClashNeverVerifies`).
- EntryParams.ResolveLayoutPageParams: asks for one template per entry, as its caller has them; `LayoutTemplates.RequestEntries` states the whole chain without this demand.
- LayoutTemplates.LoadTemplates: the second load of the manifests, from a lookup to the route lists or nothing, is a parameter; the routes of one path are a map entry, as in the configuration.
- RemoveLaws.RemovedProjectHasNoDrift: asks that a line the editor finds is the declaration of its name and nothing else (`LineByLine`), as it is unless a string of several lines holds such a line; `RemoveLaws.DriftAfterRemoval` and `RemoveLaws.NothingFoundDrifts` ask nothing of the parser.
- Manifests.PlainIsLineByLine: the value of a declaration is a parameter; files that declare a dependency elsewhere, in an inline table or with a bare or dotted key, and values of several lines are outside of it.
- RegistryRemove.Remove: bino.toml does not change between loading it and editing it, and both readings of its dependencies agree.
- RemoveLaws.ReportedOnceIff: asks for distinct names in the lock, as saved locks have.
- ServeHandlers.ServeAll: page requests only; data requests are answered by the cache by design and are covered by `LruLaws.DataServedWhileResident`.
- GraphTree.PrintTree: column lines under a node, the text of a node and the connectors are not modelled; the order of children of one kind and name is left open, as the sort leaves it.
- PluginRuntime.SettledReportsEverything: the list of undefined elements is read from the document and is not modelled; converting a reason to text is taken not to throw.
- PreviewPlugins.EveryRunConforms: what a refresh renders, and the polling that triggers it, are inputs.
- Package directories: conflicts between a file and a directory of one name, empty parent directories, and symlinks inside the store.
- The choice of a tree's root document, the size budget of a tree, the pattern of a pinned version: parameters.
- `ResolveClosure` and `registry update`: the resolved packages are inputs; kinds, compatibility ranges and lock file versions are carried along unread.
- HTTP, ETag caching, tokens, login, Chrome, DuckDB, YAML and JSON codecs, terminal output: input and output.
- `plainQueryParams`, `jsonText`, `selectablePages`, `withQueryParamDefaults`: one-branch filters before the modelled handlers.
- Hooks and binaries of the plugin manager: a reload succeeds, fails or is not needed.
- Windows path separators.
- Interactive wizards, document builders, kind and exit-code tables, unit conversion: no reasoning across functions.
