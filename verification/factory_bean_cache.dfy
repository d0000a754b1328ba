/**
 * FactoryBeanRegistrySupport: the cache of objects exposed by singleton
 * FactoryBeans, kept as a satellite of the singleton registry. The
 * registry is reduced to what the cache consults: which names hold a
 * singleton, which are currently in creation (and which are exempt from
 * that check), and the cache itself.
 */
module FactoryBeanCache {
  import opened Common

  /** An object a FactoryBean exposes; NullBean stands in for a null from getObject. */
  datatype Obj = Instance(id: nat) | NullBean

  /** The singleton registry as the factory-bean object cache sees it. */
  datatype Registry = Registry(
    singletons: set<Name>,    // containsSingleton
    inCreation: set<Name>,    // singletons currently in creation
    exclusions: set<Name>,    // names exempt from the in-creation check
    cache: map<Name, Obj>)    // factoryBeanObjectCache

  /** How FactoryBean.getObject ended. */
  datatype GetObjectOutcome =
    | Returned(value: Option<Obj>)
    | NotInitialized          // FactoryBeanNotInitializedException
    | Threw                   // any other throwable

  /**
   * One call of FactoryBean.getObject: how it ended, and the registry as
   * the call left it (getObject may call back into the factory, which can
   * create singletons and fill the cache).
   */
  datatype FactoryCall = FactoryCall(outcome: GetObjectOutcome, after: Registry)

  /** The result of getObjectFromFactoryBean, the registry afterwards, and whether getObject was called. */
  datatype Outcome = Outcome(result: Result<Obj>, registry: Registry, calledGetObject: bool)

  /** Every cached object belongs to a registered singleton (the cache is evicted with the registry). */
  predicate CacheWithinSingletons(reg: Registry) {
    reg.cache.Keys <= reg.singletons
  }

  /** getCachedObjectForFactoryBean. */
  function CachedObject(reg: Registry, beanName: Name): (r: Option<Obj>)
    ensures r.Some? <==> beanName in reg.cache
    ensures r.Some? ==> r.value == reg.cache[beanName]
  {
    if beanName in reg.cache then Some(reg.cache[beanName]) else None
  }

  /**
   * doGetObjectFromFactoryBean: an uninitialized factory means "currently
   * in creation", any other failure is a creation error, and null becomes
   * NullBean unless the bean is in creation.
   */
  function DoGetObject(call: FactoryCall, beanName: Name): (r: Result<Obj>)
    ensures r == Err(BeanCurrentlyInCreation(beanName))
            <==> call.outcome.NotInitialized? || (call.outcome == Returned(None) && beanName in call.after.inCreation)
    ensures r == Err(BeanCreation(Some(beanName))) <==> call.outcome.Threw?
    ensures r.Ok? ==> call.outcome.Returned? && r.value == call.outcome.value.GetOr(NullBean)
  {
    match call.outcome
    case NotInitialized => Err(BeanCurrentlyInCreation(beanName))
    case Threw => Err(BeanCreation(Some(beanName)))
    case Returned(v) =>
      if v.None? then
        if beanName in call.after.inCreation then Err(BeanCurrentlyInCreation(beanName)) else Ok(NullBean)
      else Ok(v.value)
  }

  /** beforeSingletonCreation: mark the name, failing if it is already marked and not exempt. */
  function BeforeSingletonCreation(reg: Registry, beanName: Name): (r: Result<Registry>)
    ensures r.Err? <==> beanName !in reg.exclusions && beanName in reg.inCreation
    ensures r.Err? ==> r.error == BeanCurrentlyInCreation(beanName)
    ensures r.Ok? ==> r.value == reg.(inCreation := r.value.inCreation)
    ensures r.Ok? ==> r.value.inCreation == (if beanName in reg.exclusions then reg.inCreation else reg.inCreation + {beanName})
  {
    if beanName in reg.exclusions then Ok(reg)
    else if beanName in reg.inCreation then Err(BeanCurrentlyInCreation(beanName))
    else Ok(reg.(inCreation := reg.inCreation + {beanName}))
  }

  /** afterSingletonCreation: unmark the name, failing if it is not marked and not exempt. */
  function AfterSingletonCreation(reg: Registry, beanName: Name): (r: Result<Registry>)
    ensures r.Err? <==> beanName !in reg.exclusions && beanName !in reg.inCreation
    ensures r.Err? ==> r.error == IllegalState
    ensures r.Ok? ==> r.value == reg.(inCreation := r.value.inCreation)
    ensures r.Ok? ==> r.value.inCreation == (if beanName in reg.exclusions then reg.inCreation else reg.inCreation - {beanName})
  {
    if beanName in reg.exclusions then Ok(reg)
    else if beanName !in reg.inCreation then Err(IllegalState)
    else Ok(reg.(inCreation := reg.inCreation - {beanName}))
  }

  /** Bracketing a name that is not in creation leaves the in-creation set as it was. */
  lemma BracketRestores(reg: Registry, beanName: Name)
    requires beanName !in reg.inCreation
    ensures BeforeSingletonCreation(reg, beanName).Ok?
    ensures var mid := BeforeSingletonCreation(reg, beanName).value;
            AfterSingletonCreation(mid, beanName) == Ok(reg)
  {
  }

  /** postProcessObjectFromFactoryBean, with a failure (None) wrapped as a creation error. */
  function PostProcess(pp: (Obj, Name) -> Option<Obj>, obj: Obj, beanName: Name): (r: Result<Obj>)
    ensures r.Ok? <==> pp(obj, beanName).Some?
    ensures r.Ok? ==> r.value == pp(obj, beanName).value
    ensures r.Err? ==> r.error == BeanCreation(Some(beanName))
  {
    match pp(obj, beanName)
    case Some(o) => Ok(o)
    case None => Err(BeanCreation(Some(beanName)))
  }

  /** The default postProcessObjectFromFactoryBean returns the object as it is. */
  function DefaultPostProcess(obj: Obj, beanName: Name): Option<Obj> {
    Some(obj)
  }

  /** Post-processing bracketed by before/after singleton creation; a failure of the bracket wins (finally). */
  function BracketedPostProcess(reg: Registry, beanName: Name, obj: Obj, pp: (Obj, Name) -> Option<Obj>)
    : (r: (Result<Obj>, Registry))
    ensures beanName !in reg.inCreation ==> r.1 == reg && r.0 == PostProcess(pp, obj, beanName)
  {
    match BeforeSingletonCreation(reg, beanName)
    case Err(e) => (Err(e), reg)
    case Ok(mid) =>
      var processed := PostProcess(pp, obj, beanName);
      match AfterSingletonCreation(mid, beanName)
      case Err(e) => (Err(e), mid)
      case Ok(done) => (processed, done)
  }

  /** The singleton path after getObject: an entry made meanwhile wins, otherwise post-process and store. */
  function StoreSingletonObject(s: Registry, beanName: Name, obj: Obj, shouldPostProcess: bool,
                                pp: (Obj, Name) -> Option<Obj>): (r: (Result<Obj>, Registry))
  {
    if beanName in s.cache then (Ok(s.cache[beanName]), s)
    else if shouldPostProcess && beanName in s.inCreation then (Ok(obj), s)
    else
      var (processed, s2) := if shouldPostProcess then BracketedPostProcess(s, beanName, obj, pp) else (Ok(obj), s);
      if processed.Ok? && beanName in s2.singletons then
        (processed, s2.(cache := s2.cache[beanName := processed.value]))
      else (processed, s2)
  }

  /** Whether the call takes the cached, singleton path. */
  predicate SingletonPath(reg: Registry, isSingletonFactory: bool, beanName: Name) {
    isSingletonFactory && beanName in reg.singletons
  }

  /**
   * getObjectFromFactoryBean. `isSingletonFactory` is FactoryBean.isSingleton,
   * `call` what getObject does if it is called, `pp` the post-processing.
   */
  function GetObjectFromFactoryBean(reg: Registry, isSingletonFactory: bool, beanName: Name,
                                    shouldPostProcess: bool, call: FactoryCall,
                                    pp: (Obj, Name) -> Option<Obj>): (r: Outcome)
    // getObject is skipped exactly on a cache hit, which answers from the cache and changes nothing
    ensures !r.calledGetObject <==> SingletonPath(reg, isSingletonFactory, beanName) && beanName in reg.cache
    ensures !r.calledGetObject ==> r.result == Ok(reg.cache[beanName]) && r.registry == reg
    // otherwise the registry is as getObject left it, but for at most a new cache entry for this bean
    ensures r.calledGetObject ==>
              && r.registry.singletons == call.after.singletons
              && r.registry.inCreation == call.after.inCreation
              && r.registry.exclusions == call.after.exclusions
              && (r.registry.cache == call.after.cache
                  || (&& SingletonPath(reg, isSingletonFactory, beanName)
                      && beanName !in call.after.cache && beanName in call.after.singletons
                      && r.result.Ok?
                      && r.registry.cache == call.after.cache[beanName := r.result.value]))
    // off the singleton path the cache is never written
    ensures !SingletonPath(reg, isSingletonFactory, beanName) ==> r.registry == call.after
    // a failing getObject fails the call
    ensures r.calledGetObject && DoGetObject(call, beanName).Err? ==> r.result == DoGetObject(call, beanName)
  {
    if SingletonPath(reg, isSingletonFactory, beanName) then
      if beanName in reg.cache then Outcome(Ok(reg.cache[beanName]), reg, false)
      else
        match DoGetObject(call, beanName)
        case Err(e) => Outcome(Err(e), call.after, true)
        case Ok(obj) =>
          var (res, s) := StoreSingletonObject(call.after, beanName, obj, shouldPostProcess, pp);
          Outcome(res, s, true)
    else
      match DoGetObject(call, beanName)
      case Err(e) => Outcome(Err(e), call.after, true)
      case Ok(obj) =>
        Outcome(if shouldPostProcess then PostProcess(pp, obj, beanName) else Ok(obj), call.after, true)
  }

  /** An entry that appeared in the cache while getObject ran is returned in place of the fresh object. */
  lemma AlreadyThereWins(reg: Registry, isSingletonFactory: bool, beanName: Name, shouldPostProcess: bool,
                         call: FactoryCall, pp: (Obj, Name) -> Option<Obj>)
    requires SingletonPath(reg, isSingletonFactory, beanName) && beanName !in reg.cache
    requires DoGetObject(call, beanName).Ok?
    requires beanName in call.after.cache
    ensures var r := GetObjectFromFactoryBean(reg, isSingletonFactory, beanName, shouldPostProcess, call, pp);
            r.result == Ok(call.after.cache[beanName]) && r.registry == call.after
  {
  }

  /** With post-processing requested for a bean in creation, the raw object is returned and not cached. */
  lemma InCreationReturnsUnprocessed(reg: Registry, isSingletonFactory: bool, beanName: Name,
                                     call: FactoryCall, pp: (Obj, Name) -> Option<Obj>)
    requires SingletonPath(reg, isSingletonFactory, beanName) && beanName !in reg.cache
    requires DoGetObject(call, beanName).Ok?
    requires beanName !in call.after.cache && beanName in call.after.inCreation
    ensures var r := GetObjectFromFactoryBean(reg, isSingletonFactory, beanName, true, call, pp);
            r.result == DoGetObject(call, beanName) && r.registry == call.after
  {
  }

  /**
   * On the singleton path a fresh object is post-processed when asked,
   * and is cached exactly when the name is still a registered singleton;
   * a post-processing failure is a creation error and caches nothing.
   */
  lemma FreshObjectStored(reg: Registry, isSingletonFactory: bool, beanName: Name, shouldPostProcess: bool,
                          call: FactoryCall, pp: (Obj, Name) -> Option<Obj>)
    requires SingletonPath(reg, isSingletonFactory, beanName) && beanName !in reg.cache
    requires DoGetObject(call, beanName).Ok?
    requires beanName !in call.after.cache && beanName !in call.after.inCreation
    ensures var r := GetObjectFromFactoryBean(reg, isSingletonFactory, beanName, shouldPostProcess, call, pp);
            var obj := DoGetObject(call, beanName).value;
            && r.result == (if shouldPostProcess then PostProcess(pp, obj, beanName) else Ok(obj))
            && (beanName in r.registry.cache <==> r.result.Ok? && beanName in call.after.singletons)
            && r.registry.inCreation == call.after.inCreation
  {
    var obj := DoGetObject(call, beanName).value;
    if shouldPostProcess {
      BracketRestores(call.after, beanName);
    }
  }

  /**
   * Once the singleton path has cached a result, asking again returns the
   * same object without calling getObject, whatever that call would do.
   */
  lemma SecondCallHitsCache(reg: Registry, beanName: Name, shouldPostProcess: bool,
                            call: FactoryCall, again: FactoryCall, pp: (Obj, Name) -> Option<Obj>)
    requires SingletonPath(reg, true, beanName)
    requires CacheWithinSingletons(call.after)
    ensures var r := GetObjectFromFactoryBean(reg, true, beanName, shouldPostProcess, call, pp);
            r.result.Ok? && beanName in r.registry.cache && r.registry.cache[beanName] == r.result.value ==>
              GetObjectFromFactoryBean(r.registry, true, beanName, shouldPostProcess, again, pp)
              == Outcome(r.result, r.registry, false)
  {
  }

  /** getObjectFromFactoryBean keeps every cached object tied to a registered singleton. */
  lemma GetObjectKeepsCacheWithinSingletons(reg: Registry, isSingletonFactory: bool, beanName: Name,
                                            shouldPostProcess: bool, call: FactoryCall,
                                            pp: (Obj, Name) -> Option<Obj>)
    requires CacheWithinSingletons(reg) && CacheWithinSingletons(call.after)
    ensures CacheWithinSingletons(GetObjectFromFactoryBean(reg, isSingletonFactory, beanName, shouldPostProcess, call, pp).registry)
  {
  }

  /** getFactoryBean: the instance itself if it is a FactoryBean, otherwise a creation error. */
  datatype BeanInstance = BeanInstance(isFactoryBean: bool, id: nat)

  function GetFactoryBean(beanName: Name, beanInstance: BeanInstance): (r: Result<BeanInstance>)
    ensures r.Ok? <==> beanInstance.isFactoryBean
    ensures r.Ok? ==> r.value == beanInstance
    ensures r.Err? ==> r.error == BeanCreation(Some(beanName))
  {
    if !beanInstance.isFactoryBean then Err(BeanCreation(Some(beanName))) else Ok(beanInstance)
  }

  /** removeSingleton: the singleton and its cached object both go; nothing else changes. */
  function RemoveSingleton(reg: Registry, beanName: Name): (r: Registry)
    ensures r.singletons == reg.singletons - {beanName}
    ensures beanName !in r.cache
    ensures forall n :: n != beanName ==> (n in r.cache <==> n in reg.cache)
    ensures forall n :: n in r.cache ==> r.cache[n] == reg.cache[n]
    ensures r.inCreation == reg.inCreation && r.exclusions == reg.exclusions
  {
    reg.(singletons := reg.singletons - {beanName}, cache := reg.cache - {beanName})
  }

  /** clearSingletonCache: no singletons and no cached objects remain. */
  function ClearSingletonCache(reg: Registry): (r: Registry)
    ensures r.singletons == {} && r.cache == map[]
    ensures r.inCreation == reg.inCreation && r.exclusions == reg.exclusions
  {
    reg.(singletons := {}, cache := map[])
  }

  /** Eviction keeps every cached object tied to a registered singleton. */
  lemma EvictionKeepsCacheWithinSingletons(reg: Registry, beanName: Name)
    requires CacheWithinSingletons(reg)
    ensures CacheWithinSingletons(RemoveSingleton(reg, beanName))
    ensures CacheWithinSingletons(ClearSingletonCache(reg))
  {
  }

  /**
   * After removeSingleton the next request can no longer be answered from
   * the cache: a singleton factory's getObject is called again.
   */
  lemma RemovedSingletonIsRecomputed(reg: Registry, beanName: Name, isSingletonFactory: bool,
                                     shouldPostProcess: bool, call: FactoryCall,
                                     pp: (Obj, Name) -> Option<Obj>)
    ensures GetObjectFromFactoryBean(RemoveSingleton(reg, beanName), isSingletonFactory, beanName,
                                     shouldPostProcess, call, pp).calledGetObject
  {
  }
}
