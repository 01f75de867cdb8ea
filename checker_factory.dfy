/**
 * The checker cache of CheckerFactory: checkers built from a configuration
 * location are kept per location and handed out again while they stay valid.
 *
 * Building a checker (parsing the configuration, rewriting its suppression
 * filters, configuring Checkstyle) happens on a worker thread whose result is
 * one of five outcomes; the build is therefore a parameter of type BuildOutcome.
 * Whether a cached checker is still valid is decided by CachedChecker.isValid,
 * whose code is not part of this model; it is a parameter too.
 */
module CheckerCache {
  import opened Wrappers
  import opened Configurations
  import opened Notifications
  import opened FactoryWorker

  /** A configuration location: what it names, the directory it lives in, and its property values. */
  datatype Location = Location(location: string, baseDir: Option<Path>, properties: seq<(string, string)>)

  /** The identity of a Checkstyle checker instance. */
  type CheckerId = nat

  /** A built checker together with the configuration it was built from. */
  datatype CachedChecker = CachedChecker(checker: CheckerId, config: Configuration)

  /** The exceptions the factory lets escape to its callers. */
  datatype Exception =
    | IllegalArgument(message: string)
    | Checkstyle(message: string, cause: Option<string>)
    | NullPointer

  const LocationRequired: string := "Location is required"
  const NoConfiguredChecker: string := "Failed to find a configured checker."
  const CouldNotLoad: string := "Could not load configuration"

  /**
   * What the worker thread left behind: a built checker, a CheckstyleException,
   * an IOException, any other Exception (described by a string), or nothing at
   * all (the thread died of an Error, which run() does not catch).
   */
  datatype BuildOutcome =
    | Built(cached: CachedChecker)
    | CheckstyleErr(message: string, cause: Option<string>)
    | IOErr(message: string)
    | OtherErr(description: string)
    | NoResult

  /** What createChecker does with an outcome: hand back a checker, hand back null, or throw. */
  datatype Creation = Created(cached: CachedChecker) | NotCreated | Raised(error: Exception)

  datatype Dispatched = Dispatched(creation: Creation, notified: seq<Notification>)

  // ---------------------------------------------------------------------------
  // createChecker: dispatching the worker's outcome
  // ---------------------------------------------------------------------------

  /**
   * createChecker's dispatch as written: for an IOException it shows an error in
   * the module's project, which throws a NullPointerException when there is no
   * module.
   */
  function CreateCheckerAsWritten(location: Location, owner: Option<ModuleContext>, outcome: BuildOutcome): (r: Dispatched)
    ensures r.creation.Created? <==> outcome.Built?
    ensures r.creation == Raised(NullPointer) <==> outcome.IOErr? && owner.None?
    ensures outcome.IOErr? && owner.Some? ==> r == Dispatched(NotCreated, [FileNotFound(location.location)])
  {
    match outcome
    case Built(cached) => Dispatched(Created(cached), [])
    case CheckstyleErr(message, cause) => Dispatched(Raised(Checkstyle(message, cause)), [])
    case IOErr(_) =>
      if owner.None? then Dispatched(Raised(NullPointer), [])
      else Dispatched(NotCreated, [FileNotFound(location.location)])
    case OtherErr(description) => Dispatched(Raised(Checkstyle(CouldNotLoad, Some(description))), [])
    case NoResult => Dispatched(NotCreated, [])
  }

  /**
   * createChecker's dispatch as intended: a CheckstyleException is rethrown,
   * an IOException is reported to the user and yields no checker, any other
   * exception is wrapped in a CheckstyleException, and a built checker is
   * handed back. Only CheckstyleException, the exception createChecker
   * declares, ever escapes.
   */
  function CreateChecker(location: Location, owner: Option<ModuleContext>, outcome: BuildOutcome): (r: Dispatched)
    ensures r.creation.Created? <==> outcome.Built?
    ensures r.creation.Created? ==> r.creation.cached == outcome.cached
    ensures r.creation.Raised? ==> r.creation.error.Checkstyle?
    ensures r.creation.Raised? <==> outcome.CheckstyleErr? || outcome.OtherErr?
    ensures outcome.CheckstyleErr? ==> r.creation.error == Checkstyle(outcome.message, outcome.cause)
    ensures outcome.OtherErr? ==> r.creation.error == Checkstyle(CouldNotLoad, Some(outcome.description))
    ensures outcome.IOErr? <==> r.notified != []
    ensures outcome.IOErr? ==> r == Dispatched(NotCreated, [FileNotFound(location.location)])
  {
    match outcome
    case Built(cached) => Dispatched(Created(cached), [])
    case CheckstyleErr(message, cause) => Dispatched(Raised(Checkstyle(message, cause)), [])
    case IOErr(_) => Dispatched(NotCreated, [FileNotFound(location.location)])
    case OtherErr(description) => Dispatched(Raised(Checkstyle(CouldNotLoad, Some(description))), [])
    case NoResult => Dispatched(NotCreated, [])
  }

  /** With a module present the code as written and the intended dispatch agree. */
  lemma DispatchAgreesWithModule(location: Location, owner: Option<ModuleContext>, outcome: BuildOutcome)
    requires owner.Some? || !outcome.IOErr?
    ensures CreateCheckerAsWritten(location, owner, outcome) == CreateChecker(location, owner, outcome)
  {
  }

  /**
   * Without a module an unreadable location makes the code as written throw a
   * NullPointerException, which createChecker does not declare, instead of
   * telling the user that the file was not found.
   */
  lemma IOErrorWithoutModuleThrows(location: Location, message: string)
    ensures CreateCheckerAsWritten(location, None, IOErr(message)).creation == Raised(NullPointer)
    ensures CreateChecker(location, None, IOErr(message)).notified == [FileNotFound(location.location)]
  {
  }

  // ---------------------------------------------------------------------------
  // getChecker, getConfig: the cache as a function of its state
  // ---------------------------------------------------------------------------

  /** What getChecker hands its caller: a checker, null, or an exception. */
  datatype Lookup = Returned(checker: CheckerId) | ReturnedNull | Threw(error: Exception)

  /**
   * One getChecker call: the new cache, the result, the checkers destroyed, the
   * notifications shown and whether a build was started.
   */
  datatype Step = Step(
    cache: map<Location, CachedChecker>,
    result: Lookup,
    destroyed: seq<CheckerId>,
    notified: seq<Notification>,
    built: bool)

  /**
   * getChecker: a null location is refused; a valid cached checker is returned;
   * otherwise a cached checker is destroyed and evicted, a new one is built,
   * and it is cached only if the build produced one.
   */
  function GetCheckerStep(
    cache: map<Location, CachedChecker>, location: Option<Location>, owner: Option<ModuleContext>,
    isValid: CachedChecker -> bool, outcome: BuildOutcome): (s: Step)
    ensures s.built ==> location.Some?
    ensures |s.destroyed| <= 1
    ensures location.Some? ==> forall k :: k != location.value ==>
      (k in s.cache <==> k in cache) && (k in cache ==> s.cache[k] == cache[k])
    ensures location.None? ==> s.cache == cache
    ensures s.result.Returned? ==>
      (location.Some? && location.value in s.cache && s.cache[location.value].checker == s.result.checker)
  {
    if location.None? then
      Step(cache, Threw(IllegalArgument(LocationRequired)), [], [], false)
    else
      var l := location.value;
      if l in cache && isValid(cache[l]) then
        Step(cache, Returned(cache[l].checker), [], [], false)
      else
        var destroyed := if l in cache then [cache[l].checker] else [];
        AfterBuild(cache - {l}, l, destroyed, CreateChecker(l, owner, outcome))
  }

  /**
   * The end of getChecker once a build has run on the evicted cache: the built
   * checker is cached and returned, null is returned, or the exception escapes.
   */
  function AfterBuild(evicted: map<Location, CachedChecker>, l: Location, destroyed: seq<CheckerId>, d: Dispatched): (s: Step)
    ensures s.built && s.destroyed == destroyed && s.notified == d.notified
    ensures l in s.cache <==> l in evicted || d.creation.Created?
    ensures forall k :: k != l ==> (k in s.cache <==> k in evicted) && (k in evicted ==> s.cache[k] == evicted[k])
    ensures s.result.Returned? <==> d.creation.Created?
    ensures d.creation.Created? ==> s.cache[l] == d.creation.cached && s.result.checker == d.creation.cached.checker
    ensures s.result.Threw? <==> d.creation.Raised?
  {
    match d.creation
    case Created(cached) => Step(evicted[l := cached], Returned(cached.checker), destroyed, d.notified, true)
    case NotCreated => Step(evicted, ReturnedNull, destroyed, d.notified, true)
    case Raised(error) => Step(evicted, Threw(error), destroyed, d.notified, true)
  }

  /**
   * getConfig: the configuration of the valid checker cached for the location;
   * an IllegalArgumentException for a null location or when there is none.
   */
  function ConfigLookup(cache: map<Location, CachedChecker>, location: Option<Location>, isValid: CachedChecker -> bool)
    : (r: Result<Configuration, Exception>)
    ensures location.None? ==> r == Failure(IllegalArgument(LocationRequired))
    ensures r.Success? <==> location.Some? && location.value in cache && isValid(cache[location.value])
    ensures r.Success? ==> r.value == cache[location.value].config
    ensures location.Some? && r.Failure? ==> r.error == IllegalArgument(NoConfiguredChecker)
  {
    if location.None? then Failure(IllegalArgument(LocationRequired))
    else if location.value in cache && isValid(cache[location.value]) then Success(cache[location.value].config)
    else Failure(IllegalArgument(NoConfiguredChecker))
  }

  // ---------------------------------------------------------------------------
  // Properties of the cache
  // ---------------------------------------------------------------------------

  /** A null location is refused before the cache is looked at: nothing is built, destroyed or shown. */
  lemma NullLocationRejected(
    cache: map<Location, CachedChecker>, owner: Option<ModuleContext>,
    isValid: CachedChecker -> bool, outcome: BuildOutcome)
    ensures GetCheckerStep(cache, None, owner, isValid, outcome) == Step(cache, Threw(IllegalArgument(LocationRequired)), [], [], false)
    ensures ConfigLookup(cache, None, isValid) == Failure(IllegalArgument(LocationRequired))
  {
  }

  /** A valid cached checker is returned as it is, and nothing else happens. */
  lemma ValidEntryReturnedAsIs(
    cache: map<Location, CachedChecker>, l: Location, owner: Option<ModuleContext>,
    isValid: CachedChecker -> bool, outcome: BuildOutcome)
    requires l in cache && isValid(cache[l])
    ensures GetCheckerStep(cache, Some(l), owner, isValid, outcome) == Step(cache, Returned(cache[l].checker), [], [], false)
  {
  }

  /**
   * An invalid cached checker is destroyed exactly once and a build is started;
   * whatever is returned afterwards is the newly built checker.
   */
  lemma InvalidEntryDestroyedOnce(
    cache: map<Location, CachedChecker>, l: Location, owner: Option<ModuleContext>,
    isValid: CachedChecker -> bool, outcome: BuildOutcome)
    requires l in cache && !isValid(cache[l])
    ensures var s := GetCheckerStep(cache, Some(l), owner, isValid, outcome);
      s.destroyed == [cache[l].checker] && s.built
      && (s.result.Returned? ==> outcome.Built? && s.result.checker == outcome.cached.checker)
  {
  }

  /**
   * The checker evicted as invalid is never handed out again, provided the
   * build creates a new checker (run() constructs a fresh Checker each time).
   */
  lemma StaleCheckerNeverReturned(
    cache: map<Location, CachedChecker>, l: Location, owner: Option<ModuleContext>,
    isValid: CachedChecker -> bool, outcome: BuildOutcome)
    requires l in cache && !isValid(cache[l])
    requires outcome.Built? ==> outcome.cached.checker != cache[l].checker
    ensures GetCheckerStep(cache, Some(l), owner, isValid, outcome).result != Returned(cache[l].checker)
  {
  }

  /**
   * With a module present, or for any outcome other than an IOException, the
   * cache step equals the one getChecker takes with createChecker as written.
   */
  lemma GetCheckerStepAgreesWithCode(
    cache: map<Location, CachedChecker>, l: Location, owner: Option<ModuleContext>,
    isValid: CachedChecker -> bool, outcome: BuildOutcome)
    requires owner.Some? || !outcome.IOErr?
    requires !(l in cache && isValid(cache[l]))
    ensures GetCheckerStep(cache, Some(l), owner, isValid, outcome)
      == AfterBuild(cache - {l}, l, if l in cache then [cache[l].checker] else [], CreateCheckerAsWritten(l, owner, outcome))
  {
    DispatchAgreesWithModule(l, owner, outcome);
  }

  /**
   * Without a module, an unreadable location makes getChecker as written throw a
   * NullPointerException after evicting the stale entry, with no notice shown;
   * the cache step, built on the corrected dispatch, returns null and shows the
   * "not found" error instead. Both leave the location uncached.
   */
  lemma GetCheckerAsWrittenThrowsWithoutModule(
    cache: map<Location, CachedChecker>, l: Location, isValid: CachedChecker -> bool, message: string)
    requires !(l in cache && isValid(cache[l]))
    ensures var destroyed := if l in cache then [cache[l].checker] else [];
      var asWritten := AfterBuild(cache - {l}, l, destroyed, CreateCheckerAsWritten(l, None, IOErr(message)));
      var corrected := GetCheckerStep(cache, Some(l), None, isValid, IOErr(message));
      asWritten.result == Threw(NullPointer) && l !in asWritten.cache && asWritten.notified == []
      && asWritten.destroyed == corrected.destroyed
      && corrected.result == ReturnedNull && l !in corrected.cache && corrected.notified == [FileNotFound(l.location)]
  {
  }

  /** Nothing is destroyed when the location was not cached. */
  lemma MissDestroysNothing(
    cache: map<Location, CachedChecker>, l: Location, owner: Option<ModuleContext>,
    isValid: CachedChecker -> bool, outcome: BuildOutcome)
    requires l !in cache
    ensures var s := GetCheckerStep(cache, Some(l), owner, isValid, outcome);
      s.destroyed == [] && s.built
  {
  }

  /**
   * After a build the location is cached exactly when the build produced a
   * checker, and then with that checker.
   */
  lemma OnlySuccessIsCached(
    cache: map<Location, CachedChecker>, l: Location, owner: Option<ModuleContext>,
    isValid: CachedChecker -> bool, outcome: BuildOutcome)
    requires !(l in cache && isValid(cache[l]))
    ensures var s := GetCheckerStep(cache, Some(l), owner, isValid, outcome);
      (l in s.cache <==> outcome.Built?)
      && (outcome.Built? ==> s.cache[l] == outcome.cached && s.result == Returned(outcome.cached.checker))
  {
  }

  /**
   * An unreadable location leaves no checker cached, yields null and shows the
   * "not found" error once.
   */
  lemma IOErrorLeavesKeyAbsent(
    cache: map<Location, CachedChecker>, l: Location, owner: Option<ModuleContext>,
    isValid: CachedChecker -> bool, message: string)
    requires !(l in cache && isValid(cache[l]))
    ensures var s := GetCheckerStep(cache, Some(l), owner, isValid, IOErr(message));
      l !in s.cache && s.result == ReturnedNull && s.notified == [FileNotFound(l.location)]
  {
  }

  /**
   * A checker returned by getChecker that is still valid at the next call for
   * the same location is returned again, without a build, whatever that build
   * would have produced.
   */
  lemma RepeatedLookupHitsCache(
    cache: map<Location, CachedChecker>, l: Location, owner: Option<ModuleContext>,
    isValid: CachedChecker -> bool, outcome: BuildOutcome, outcome': BuildOutcome)
    requires GetCheckerStep(cache, Some(l), owner, isValid, outcome).result.Returned?
    requires isValid(GetCheckerStep(cache, Some(l), owner, isValid, outcome).cache[l])
    ensures var s := GetCheckerStep(cache, Some(l), owner, isValid, outcome);
      var s' := GetCheckerStep(s.cache, Some(l), owner, isValid, outcome');
      s'.result == s.result && s'.cache == s.cache && !s'.built && s'.destroyed == []
  {
  }

  /** With an emptied cache every lookup of a location builds a new checker and destroys nothing. */
  lemma EmptyCacheBuilds(
    l: Location, owner: Option<ModuleContext>, isValid: CachedChecker -> bool, outcome: BuildOutcome)
    ensures var s := GetCheckerStep(map[], Some(l), owner, isValid, outcome);
      s.built && s.destroyed == [] && (s.result.Returned? <==> outcome.Built?)
  {
  }

  /**
   * After getChecker returned a checker that is still valid, getConfig for the
   * same location gives the configuration that checker was built from.
   */
  lemma ConfigOfReturnedChecker(
    cache: map<Location, CachedChecker>, l: Location, owner: Option<ModuleContext>,
    isValid: CachedChecker -> bool, outcome: BuildOutcome)
    requires GetCheckerStep(cache, Some(l), owner, isValid, outcome).result.Returned?
    requires isValid(GetCheckerStep(cache, Some(l), owner, isValid, outcome).cache[l])
    ensures var s := GetCheckerStep(cache, Some(l), owner, isValid, outcome);
      ConfigLookup(s.cache, Some(l), isValid)
        == Success(if l in cache && isValid(cache[l]) then cache[l].config else outcome.cached.config)
  {
  }

  // ---------------------------------------------------------------------------
  // The factory object
  // ---------------------------------------------------------------------------

  /**
   * The factory: a map from locations to cached checkers, updated in place.
   * The ghost logs record the checkers destroyed, the notifications shown and
   * the number of builds started, so that the effects of each call can be stated.
   */
  class CheckerFactory {
    var cache: map<Location, CachedChecker>
    ghost var destroyed: seq<CheckerId>
    ghost var notifications: seq<Notification>
    ghost var builds: nat

    constructor ()
      ensures cache == map[] && destroyed == [] && notifications == [] && builds == 0
    {
      cache := map[];
      destroyed := [];
      notifications := [];
      builds := 0;
    }

    /**
     * getChecker, with `outcome` the result the worker thread would produce
     * if a build is started.
     */
    method GetChecker(location: Option<Location>, owner: Option<ModuleContext>,
                      isValid: CachedChecker -> bool, outcome: BuildOutcome)
      returns (result: Lookup)
      modifies this
      ensures var s := GetCheckerStep(old(cache), location, owner, isValid, outcome);
        cache == s.cache && result == s.result
        && destroyed == old(destroyed) + s.destroyed
        && notifications == old(notifications) + s.notified
        && builds == old(builds) + (if s.built then 1 else 0)
    {
      if location.None? {
        return Threw(IllegalArgument(LocationRequired));
      }
      var l := location.value;
      if l in cache {
        var cachedChecker := cache[l];
        if isValid(cachedChecker) {
          return Returned(cachedChecker.checker);
        }
        destroyed := destroyed + [cachedChecker.checker];
        cache := cache - {l};
      }

      var d := CreateChecker(l, owner, outcome);
      builds := builds + 1;
      notifications := notifications + d.notified;
      match d.creation
      case Created(checker) =>
        cache := cache[l := checker];
        result := Returned(checker.checker);
      case NotCreated =>
        result := ReturnedNull;
      case Raised(error) =>
        result := Threw(error);
    }

    /** invalidateCache: forgets every cached checker without destroying any. */
    method InvalidateCache()
      modifies this`cache
      ensures cache == map[]
      ensures destroyed == old(destroyed)
    {
      cache := map[];
    }

    /** getConfig: reads the cache and changes nothing. */
    method GetConfig(location: Option<Location>, isValid: CachedChecker -> bool)
      returns (r: Result<Configuration, Exception>)
      ensures r == ConfigLookup(cache, location, isValid)
    {
      if location.None? {
        return Failure(IllegalArgument(LocationRequired));
      }
      var l := location.value;
      if l in cache {
        var cachedChecker := cache[l];
        if isValid(cachedChecker) {
          return Success(cachedChecker.config);
        }
      }
      return Failure(IllegalArgument(NoConfiguredChecker));
    }
  }
}
