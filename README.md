# CheckerFactory, modelled in Dafny

This project models `CheckerFactory`, the Checkstyle-IDEA component that builds
Checkstyle checkers from configuration locations and caches them per location.
It covers two parts of the factory:

- **The checker cache** (module `CheckerCache`, file `checker_factory.dfy`).
  - The class `CheckerFactory` holds the map from locations to cached checkers.
  - `GetChecker`, `InvalidateCache` and `GetConfig` update or read that map as
    `getChecker`, `invalidateCache` and `getConfig` do.
  - Ghost logs record the checkers destroyed, the notifications shown to the user
    and the builds started.
  - Each method is proved against a pure function (`GetCheckerStep`,
    `ConfigLookup`), and the cache's promises are lemmas about those functions.
  - `createChecker` turns the worker thread's result into a checker, a null or an
    exception. It is modelled twice: as written (`CreateCheckerAsWritten`) and as
    intended (`CreateChecker`); see Findings.
- **The configuration worker's suppression-filter rewrite** (module `FactoryWorker`,
  file `factory_worker.dfy`).
  - `GetSuppressionFile` looks for a suppression file in the prescribed order:
    1. next to the configuration;
    2. in each content root of the module;
    3. next to the module file;
    4. in the project's base directory.
  - `SuppressionFilterWithFilename` rebuilds a SuppressionFilter node around a new path.
  - `ReplaceSuppressionFilterPath` walks the root's direct children and replaces
    each filter whose file does not exist.
  - All three are imperative methods, proved against the functions `Search`,
    `FilterWithFilename` and `Rewritten`.
- **Supporting files.**
  - `configuration.dfy` (module `Configurations`) holds the configuration tree and
    the two DefaultConfiguration mutators the worker relies on: `addAttribute` and
    `removeChild`.
  - `notifications.dfy` holds the user notifications, identified by resource key.
  - `wrappers.dfy` holds `Option` and `Result`.

Abstractions:

- **File system.** A set of existing paths plus two functions: `join` (the
  `new File(dir, name)` constructor) and `absolute` (`getAbsolutePath`).
  `new File(fileName).exists()` becomes `fileName in existing`.
- **Module.** A null module is `None`. A present one is reduced to what the
  search reads: its content roots in order, the directory of its module file and
  the project's base directory.
- **The build.** The worker thread's result is a parameter of type `BuildOutcome`:
  - `Built`: a cached checker;
  - `CheckstyleErr`: a CheckstyleException;
  - `IOErr`: an IOException;
  - `OtherErr`: any other Exception;
  - `NoResult`: the thread ended with an `Error`, which `run()` does not catch,
    leaving its result null.
- **Validity.** `CachedChecker.isValid()` is a parameter of type
  `CachedChecker -> bool`.

Two behaviours of the code are easy to miss:

- A SuppressionFilter whose file is found nowhere is removed from the tree, not
  kept with its original path: `removeChild` runs before the search result is
  looked at.
- An unreadable location is not always reported to the user. With no module, the
  code throws a NullPointerException instead; see Findings. The cache model
  (`GetCheckerStep` and the class built on it) uses the corrected dispatch;
  `GetCheckerStepAgreesWithCode` shows it matches the code in every other case,
  and `GetCheckerAsWrittenThrowsWithoutModule` shows what the code does in that one.

## Model

| member | source | states |
|---|---|---|
| Configurations.AddAttribute | src/main/java/org/infernus/idea/checkstyle/checker/CheckerFactory.java:370-378 | adding an attribute keeps every other attribute; a new name gets exactly the given value; an existing name keeps its old value as a proper prefix, followed by a comma and the new value |
| Configurations.RemoveChild | src/main/java/org/infernus/idea/checkstyle/checker/CheckerFactory.java:332 | removing a node that is absent changes nothing; removing a present node shortens the child list by exactly one |
| Configurations.RemoveChildAt | src/main/java/org/infernus/idea/checkstyle/checker/CheckerFactory.java:332 | when no earlier node equals the child, removal takes out exactly that position and keeps the rest in order |
| FactoryWorker.Candidates | src/main/java/org/infernus/idea/checkstyle/checker/CheckerFactory.java:386-422 | every candidate is the file name joined to some directory; the directory next to the configuration, when known, comes first; without a module there is at most that one candidate; with a module there is one per content root at least |
| FactoryWorker.Search | src/main/java/org/infernus/idea/checkstyle/checker/CheckerFactory.java:383-426 | nothing is found if and only if no candidate exists; a found file exists and is one of the candidates |
| FactoryWorker.FirstExisting | src/main/java/org/infernus/idea/checkstyle/checker/CheckerFactory.java:383-426 | nothing is found if and only if no candidate exists; a found file exists and is one of the candidates |
| FactoryWorker.FirstExistingIsFirst | src/main/java/org/infernus/idea/checkstyle/checker/CheckerFactory.java:399-404 | an existing candidate with no existing candidate before it is the one returned |
| FactoryWorker.FirstExistingAppend | src/main/java/org/infernus/idea/checkstyle/checker/CheckerFactory.java:398-417 | a later group of candidates is consulted only when every earlier group found nothing (the `suppressionFile == null` guards) |
| FactoryWorker.GetSuppressionFile | src/main/java/org/infernus/idea/checkstyle/checker/CheckerFactory.java:383-426 | the result is the first existing path among base dir, content roots, module-file directory and project base dir, in that order; whatever it returns exists |
| FactoryWorker.BaseDirWins | src/main/java/org/infernus/idea/checkstyle/checker/CheckerFactory.java:386-392 | a file next to the configuration is chosen over every module-derived location |
| FactoryWorker.ContentRootsInOrder | src/main/java/org/infernus/idea/checkstyle/checker/CheckerFactory.java:397-406 | with nothing next to the configuration, the first content root holding the file decides |
| FactoryWorker.ModuleFileBeforeProject | src/main/java/org/infernus/idea/checkstyle/checker/CheckerFactory.java:408-422 | with no hit next to the configuration or in any content root, an existing file in the module file's directory is chosen, whatever the project directory holds |
| FactoryWorker.ProjectBaseDirLast | src/main/java/org/infernus/idea/checkstyle/checker/CheckerFactory.java:416-422 | the project's base directory decides only when every earlier candidate is missing, and then its file is chosen |
| FactoryWorker.WithoutModuleOnlyBaseDir | src/main/java/org/infernus/idea/checkstyle/checker/CheckerFactory.java:394-423 | without a module a file is found if and only if it exists next to the configuration, and then it is that file |
| FactoryWorker.SuppressionFilterWithFilename | src/main/java/org/infernus/idea/checkstyle/checker/CheckerFactory.java:346-381 | the new node is a DefaultConfiguration named SuppressionFilter with the original's children and messages, every original attribute except `file` unchanged, and `file` equal to the new path (not comma-joined to the old one) |
| FactoryWorker.FilterWithFilenameDetermined | src/main/java/org/infernus/idea/checkstyle/checker/CheckerFactory.java:346-381 | any node meeting SuppressionFilterWithFilename's contract is the one rebuilt node for that path and original |
| FactoryWorker.FilterWithFilename | src/main/java/org/infernus/idea/checkstyle/checker/CheckerFactory.java:351-378 | the rebuilt node is a DefaultConfiguration named SuppressionFilter with the original's children and messages, and its `file` attribute is the new path |
| FactoryWorker.FilterWithFilenameAttributes | src/main/java/org/infernus/idea/checkstyle/checker/CheckerFactory.java:364-378 | the rebuilt node's attribute names are the original's plus `file`, and every attribute other than `file` keeps its value |
| FactoryWorker.SkippedChildren | src/main/java/org/infernus/idea/checkstyle/checker/CheckerFactory.java:324-329 | a child is rewritten if and only if it is named SuppressionFilter, has a `file` attribute, and that file does not exist as written |
| FactoryWorker.ReplacementFor | src/main/java/org/infernus/idea/checkstyle/checker/CheckerFactory.java:334-336 | at most one node is appended per child |
| FactoryWorker.ReplacementOnlyWhenFound | src/main/java/org/infernus/idea/checkstyle/checker/CheckerFactory.java:330-336 | a node is appended for a child if and only if it is a broken filter and its suppression file was found |
| FactoryWorker.WarningFor | src/main/java/org/infernus/idea/checkstyle/checker/CheckerFactory.java:338-341 | at most one warning is raised per child; WarningOnlyWhenMissing states when |
| FactoryWorker.WarningOnlyWhenMissing | src/main/java/org/infernus/idea/checkstyle/checker/CheckerFactory.java:338-341 | a child is warned about if and only if it is a broken filter, no file was found and there is a module; the warning is always the missing-suppressions one |
| FactoryWorker.Kept | src/main/java/org/infernus/idea/checkstyle/checker/CheckerFactory.java:323-332 | the rewrite never keeps more children than it visited; which children it keeps is stated by KeptIsUnbroken |
| FactoryWorker.Replacements | src/main/java/org/infernus/idea/checkstyle/checker/CheckerFactory.java:330-336 | the rewrite never appends more nodes than it visited children; what they are is stated by ReplacementsNameExistingFiles, ReplacementRetained and FoundFilterReplaced |
| FactoryWorker.Warnings | src/main/java/org/infernus/idea/checkstyle/checker/CheckerFactory.java:323-343 | the rewrite raises at most one warning per visited child; WarningsAreSuppressionsNotFound and EveryChildAccountedFor state which |
| FactoryWorker.WarningsAreSuppressionsNotFound | src/main/java/org/infernus/idea/checkstyle/checker/CheckerFactory.java:338-341 | every warning the rewrite raises is the missing-suppressions warning |
| FactoryWorker.Rewritten | src/main/java/org/infernus/idea/checkstyle/checker/CheckerFactory.java:315-344 | the rewritten tree keeps the root's class, name, attributes and messages; a root that is not a DefaultConfiguration is returned untouched |
| FactoryWorker.RewriteWarnings | src/main/java/org/infernus/idea/checkstyle/checker/CheckerFactory.java:315-344 | at most one warning per direct child; none for a root that is not a DefaultConfiguration |
| FactoryWorker.KeptIsUnbroken | src/main/java/org/infernus/idea/checkstyle/checker/CheckerFactory.java:324-332 | the kept children are exactly the visited children that are not broken filters |
| FactoryWorker.ReplacementsNameExistingFiles | src/main/java/org/infernus/idea/checkstyle/checker/CheckerFactory.java:334-336 | every appended node is a SuppressionFilter whose `file` is the absolute path of a file that exists |
| FactoryWorker.BrokenFilterOutcome | src/main/java/org/infernus/idea/checkstyle/checker/CheckerFactory.java:330-341 | a broken filter whose file is found gets its rebuilt node; one found nowhere gets no node, and gets a warning exactly when there is a module |
| FactoryWorker.RewriteBrokenStep | src/main/java/org/infernus/idea/checkstyle/checker/CheckerFactory.java:329-341 | removing a broken filter from the live child list and appending its replacement keeps the list equal to kept + unvisited + replacements; the warnings grow by that child's warning |
| FactoryWorker.ReplaceSuppressionFilterPath | src/main/java/org/infernus/idea/checkstyle/checker/CheckerFactory.java:315-344 | a non-DefaultConfiguration root is returned untouched; otherwise the root's children become the unbroken children in order followed by the rebuilt filters in the order of their originals; the warnings are those of filters found nowhere, in a module |
| FactoryWorker.NothingBrokenNothingChanged | src/main/java/org/infernus/idea/checkstyle/checker/CheckerFactory.java:323-329 | children with no broken filter are kept exactly, with nothing appended and no warning |
| FactoryWorker.RewrittenHasNoBrokenFilter | src/main/java/org/infernus/idea/checkstyle/checker/CheckerFactory.java:329-336 | after the rewrite no direct child is a SuppressionFilter naming a missing file |
| FactoryWorker.RewriteIdempotent | src/main/java/org/infernus/idea/checkstyle/checker/CheckerFactory.java:318-343 | rewriting a rewritten tree changes nothing and raises no warning |
| FactoryWorker.BrokenFilterDropped | src/main/java/org/infernus/idea/checkstyle/checker/CheckerFactory.java:332 | a broken filter never survives the rewrite: it is neither kept nor among the appended nodes |
| FactoryWorker.ReplacementRetained | src/main/java/org/infernus/idea/checkstyle/checker/CheckerFactory.java:335-336 | the node appended for any visited child stays among the appended nodes until the end |
| FactoryWorker.FoundFilterReplaced | src/main/java/org/infernus/idea/checkstyle/checker/CheckerFactory.java:332-336 | a broken filter whose file is found has its rebuilt node, with the absolute path, among the appended nodes |
| FactoryWorker.EveryChildAccountedFor | src/main/java/org/infernus/idea/checkstyle/checker/CheckerFactory.java:330-341 | in a module, the kept children, the appended nodes and the warnings together number exactly the children visited |
| FactoryWorker.NoWarningWithoutModule | src/main/java/org/infernus/idea/checkstyle/checker/CheckerFactory.java:338 | without a module the rewrite never warns: an unresolvable filter disappears silently |
| CheckerCache.CreateCheckerAsWritten | src/main/java/org/infernus/idea/checkstyle/checker/CheckerFactory.java:181-198 | a checker is handed back exactly when one was built; the dispatch throws a NullPointerException exactly when the outcome is an IOException and there is no module; with a module an IOException yields null and one "not found" error |
| CheckerCache.CreateChecker | src/main/java/org/infernus/idea/checkstyle/checker/CheckerFactory.java:181-198 | the built checker is handed back unchanged; a CheckstyleException is rethrown as is; any other exception is wrapped as "Could not load configuration"; only CheckstyleExceptions escape; an IOException, and only it, yields null with exactly one "not found" error |
| CheckerCache.DispatchAgreesWithModule | src/main/java/org/infernus/idea/checkstyle/checker/CheckerFactory.java:184-191 | with a module, or for any outcome other than an IOException, the code as written and the corrected dispatch agree |
| CheckerCache.IOErrorWithoutModuleThrows | src/main/java/org/infernus/idea/checkstyle/checker/CheckerFactory.java:190 | without a module, the code as written throws a NullPointerException for an IOException, where the corrected dispatch reports the missing file |
| CheckerCache.GetCheckerStep | src/main/java/org/infernus/idea/checkstyle/checker/CheckerFactory.java:76-106 | only a non-null location triggers a build; at most one checker is destroyed; entries for other locations are untouched; a null location leaves the cache as it is; a returned checker is the one now cached for the location |
| CheckerCache.AfterBuild | src/main/java/org/infernus/idea/checkstyle/checker/CheckerFactory.java:97-104 | after a build, the location is cached exactly when a checker was created, with that checker, which is returned; an escaping exception is rethrown; other locations and the destroyed checkers are untouched |
| CheckerCache.GetCheckerStepAgreesWithCode | src/main/java/org/infernus/idea/checkstyle/checker/CheckerFactory.java:89-104 | with a module, or for any outcome other than an IOException, the cache step is exactly what getChecker does with createChecker as written |
| CheckerCache.GetCheckerAsWrittenThrowsWithoutModule | src/main/java/org/infernus/idea/checkstyle/checker/CheckerFactory.java:98-104 | without a module, an unreadable location makes the code as written throw a NullPointerException with no notice, after the same eviction, where the cache step returns null and shows the "not found" error |
| CheckerCache.StaleCheckerNeverReturned | src/main/java/org/infernus/idea/checkstyle/checker/CheckerFactory.java:89-101 | an evicted invalid checker is never returned again when the build makes a new checker |
| CheckerCache.ConfigLookup | src/main/java/org/infernus/idea/checkstyle/checker/CheckerFactory.java:123-138 | a configuration is returned if and only if the location is non-null and has a valid cached checker, and then it is that checker's configuration; otherwise the IllegalArgumentException for a null location or for a missing checker |
| CheckerCache.NullLocationRejected | src/main/java/org/infernus/idea/checkstyle/checker/CheckerFactory.java:80-82 | a null location throws "Location is required" before the cache is read: nothing built, destroyed, shown or changed, in getChecker and getConfig alike |
| CheckerCache.ValidEntryReturnedAsIs | src/main/java/org/infernus/idea/checkstyle/checker/CheckerFactory.java:85-88 | a valid cached checker is returned with the cache unchanged, nothing destroyed and no build |
| CheckerCache.InvalidEntryDestroyedOnce | src/main/java/org/infernus/idea/checkstyle/checker/CheckerFactory.java:89-94 | an invalid cached checker is destroyed exactly once and a build starts; anything returned is the newly built checker |
| CheckerCache.MissDestroysNothing | src/main/java/org/infernus/idea/checkstyle/checker/CheckerFactory.java:85-98 | a location that is not cached gets a build and destroys nothing |
| CheckerCache.OnlySuccessIsCached | src/main/java/org/infernus/idea/checkstyle/checker/CheckerFactory.java:97-104 | after a build the location is cached if and only if a checker was built, with that checker, which is also what is returned |
| CheckerCache.IOErrorLeavesKeyAbsent | src/main/java/org/infernus/idea/checkstyle/checker/CheckerFactory.java:98-104 | an unreadable location leaves no entry, returns null and shows one "not found" error |
| CheckerCache.RepeatedLookupHitsCache | src/main/java/org/infernus/idea/checkstyle/checker/CheckerFactory.java:85-101 | a checker still valid at the next call is returned again, with no build and nothing destroyed |
| CheckerCache.EmptyCacheBuilds | src/main/java/org/infernus/idea/checkstyle/checker/CheckerFactory.java:111-115 | after invalidation every lookup builds, destroys nothing, and returns a checker exactly when one was built |
| CheckerCache.ConfigOfReturnedChecker | src/main/java/org/infernus/idea/checkstyle/checker/CheckerFactory.java:128-133 | after getChecker returned a checker that is still valid, getConfig gives the configuration it was built from |
| CheckerCache.CheckerFactory.constructor | src/main/java/org/infernus/idea/checkstyle/checker/CheckerFactory.java:48-54 | a new factory has an empty cache and has destroyed, shown and built nothing |
| CheckerCache.CheckerFactory.GetChecker | src/main/java/org/infernus/idea/checkstyle/checker/CheckerFactory.java:76-106 | the new cache and the result are those of GetCheckerStep; the destroyed checkers and the notifications are appended to the logs; the build count grows by one exactly when a build started |
| CheckerCache.CheckerFactory.InvalidateCache | src/main/java/org/infernus/idea/checkstyle/checker/CheckerFactory.java:111-115 | the cache is empty and no checker is destroyed |
| CheckerCache.CheckerFactory.GetConfig | src/main/java/org/infernus/idea/checkstyle/checker/CheckerFactory.java:123-138 | the result is ConfigLookup of the current cache; nothing is changed |

## Left out

- Threads and locks: the worker thread (`start`, `join`, the interrupt-retry loop), the context class loader, and the `synchronized (cache)` blocks. Each call is modelled as one atomic step.
- Checker construction inside `run()`: resolving the location, `ConfigurationLoader.loadConfiguration`, `Checker.configure`, and closing the stream. The build is the `BuildOutcome` parameter. The rewrite therefore is not chained to the build in the model.
- `ListPropertyResolver` and the location's properties: they feed only the Checkstyle loader, which is not modelled.
- `CachedChecker.isValid()` is not part of this model. It is a parameter, taken to be side-effect-free.
- `Checker.destroy()` is recorded in a ghost log. Its effect on the checker is not modelled.
- Debug and info logging: `logProperties`, `logClassLoaders`, `LOG.info`, `LOG.warn` for a root of unknown class, and `LOG.error` for an attribute that cannot be copied.
- `IDEAUtilities` lookups of localised text: notifications carry the resource key, not the translated text.
- The singleton `getInstance()` is not modelled.
- CheckStyleInspection.java is not part of this model. It is only consulted for what it passes as the module, which may be null.
- The cache's values are never null. `getChecker` only stores non-null checkers, so the `cachedChecker != null` tests are always true.
- Configurations.AddAttribute: follows the engine's append-with-comma rule for a repeated name. DefaultConfiguration itself is not part of this model.
- Configurations.RemoveChild: removes the first equal node, where Java compares nodes by identity. Nodes are values here. `RemoveChildAt` and `KeptIsUnbroken` show that the first equal node is always the one being visited: an earlier equal node would also be a broken filter, and so already removed.
- CheckerCache.GetCheckerStep: built on the corrected `CreateChecker`. Without a module, an IOException gives null and a "not found" error, where the code throws a NullPointerException after the eviction and shows nothing (`GetCheckerAsWrittenThrowsWithoutModule`). In every other case it equals the code (`GetCheckerStepAgreesWithCode`).
- CheckerCache.CheckerFactory.GetChecker: follows `GetCheckerStep`, so it has the same one difference from the code: no NullPointerException for an unreadable location without a module.
- CheckerCache.IOErrorLeavesKeyAbsent: its null result and notice hold for the corrected dispatch. Without a module, the code as written throws a NullPointerException instead; the location is left uncached either way (`GetCheckerAsWrittenThrowsWithoutModule`).
- FactoryWorker.GetSuppressionFile: a content root whose `getFile()` is null makes the code throw a NullPointerException. `run()` would catch it and rethrow it as "Could not load configuration", which is the `OtherErr` outcome of the build. The model assumes every content root has a file.
- FactoryWorker.ReplaceSuppressionFilterPath: `getAttribute` for a missing name is taken to give null. Whether the engine throws there instead is not modelled.
- FactoryWorker.GetSuppressionFile: a module file without a parent would throw a NullPointerException in the code. The model assumes it is present.
- FactoryWorker.SuppressionFilterWithFilename: the order in which messages and attributes are copied is not modelled, since maps are unordered. Null children, messages or attribute-name collections are not modelled either; the configuration tree has none.

## Findings

| source | as written | input that shows it | evidently intended | confidence | as-written member | corrected member |
|---|---|---|---|---|---|---|
| src/main/java/org/infernus/idea/checkstyle/checker/CheckerFactory.java:190 | on an IOException, `createChecker` shows the "not found" error via `module.getProject()` without checking `module` | `getChecker(location, null, loader)` for a location whose file cannot be read; the inspection passes a module documented as "May be null" (src/main/java/org/infernus/idea/checkstyle/CheckStyleInspection.java:61-74) | report the missing file and return null, as for a present module; only CheckstyleException escapes, as the method declares | not executed | CheckerCache.IOErrorWithoutModuleThrows | CheckerCache.CreateChecker |
