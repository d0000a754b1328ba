/**
 * AbstractUrlHandlerMapping with String patterns: handler registration
 * with its conflict check and the two special paths, and lookup by direct
 * match, then by best matching pattern, then by root and default handler.
 * The path matcher and its pattern comparator are collaborators.
 */
module UrlHandlerMapping {
  import opened Common
  import LinkedMaps
  import OrderSort

  /** A handler: a bean name still to be resolved, or a handler object. */
  datatype Handler = HandlerName(name: Name) | HandlerBean(beanId: nat)

  datatype Mapping = Mapping(
    handlerMap: seq<(string, Handler)>,
    rootHandler: Option<Handler>,
    defaultHandler: Option<Handler>,
    useTrailingSlashMatch: bool,
    lazyInitHandlers: bool)

  /**
   * The application context: the singleton test (NoSuchBeanDefinitionException
   * for an unknown name) and bean lookup (any BeansException), each of
   * which may throw.
   */
  datatype Context = Context(isSingleton: Name -> Result<bool>, getBean: Name -> Result<nat>)

  /**
   * The PathMatcher: match(pattern, path), the pattern comparator for a
   * lookup path as a rank (lower is more specific), URI variable
   * extraction and extractPathWithinPattern.
   */
  datatype Matcher = Matcher(
    matches: (string, string) -> bool,
    rank: (string, string) -> int,
    extractVariables: (string, string) -> seq<(string, string)>,
    pathWithinPattern: (string, string) -> string)

  /** The handler execution chain with what it exposes to the request. */
  datatype Chain = Chain(
    handler: Handler,
    bestMatchingPattern: string,
    pathWithinMapping: string,
    uriTemplateVariables: seq<(string, string)>)

  /** The state every registration keeps: distinct keys, and neither special path as a key. */
  predicate Valid(m: Mapping) {
    LinkedMaps.DistinctKeys(m.handlerMap)
    && "/" !in LinkedMaps.Keys(m.handlerMap) && "/*" !in LinkedMaps.Keys(m.handlerMap)
  }

  /**
   * A bean name is resolved into the bean when handlers are not lazy and it
   * names a singleton; the singleton test and the lookup may throw.
   */
  function ResolveForRegistration(m: Mapping, handler: Handler, ctx: Context): (h: Result<Handler>)
    ensures m.lazyInitHandlers || handler.HandlerBean? ==> h == Ok(handler)
    ensures !m.lazyInitHandlers && handler.HandlerName? ==>
              var single := ctx.isSingleton(handler.name);
              var bean := ctx.getBean(handler.name);
              && (single.Err? ==> h == Err(single.error))
              && (single == Ok(false) ==> h == Ok(handler))
              && (single == Ok(true) && bean.Err? ==> h == Err(bean.error))
              && (single == Ok(true) && bean.Ok? ==> h == Ok(HandlerBean(bean.value)))
  {
    if m.lazyInitHandlers || handler.HandlerBean? then Ok(handler)
    else
      var single :- ctx.isSingleton(handler.name);
      if !single then Ok(handler)
      else
        var id :- ctx.getBean(handler.name);
        Ok(HandlerBean(id))
  }

  /** registerHandler(String, Object). */
  function RegisterHandler(m: Mapping, urlPath: string, handler: Handler, ctx: Context): (r: Result<Mapping>)
    ensures var res := ResolveForRegistration(m, handler, ctx);
            res.Err? ==> r == Err(res.error)
    ensures var res := ResolveForRegistration(m, handler, ctx);
            var mapped := LinkedMaps.Get(m.handlerMap, urlPath);
            res.Ok? ==>
              && (mapped.Some? && mapped.value != res.value ==> r == Err(IllegalState))
              && (mapped.Some? && mapped.value == res.value ==> r == Ok(m))
              && (mapped.None? && urlPath == "/" ==> r == Ok(m.(rootHandler := Some(res.value))))
              && (mapped.None? && urlPath == "/*" ==> r == Ok(m.(defaultHandler := Some(res.value))))
    ensures r.Err? ==> r.error == IllegalState || ResolveForRegistration(m, handler, ctx) == Err(r.error)
    ensures r.Ok? ==> r.value.lazyInitHandlers == m.lazyInitHandlers
    ensures Valid(m) && r.Ok? ==> Valid(r.value)
  {
    var resolved :- ResolveForRegistration(m, handler, ctx);
    var mapped := LinkedMaps.Get(m.handlerMap, urlPath);
    if mapped.Some? then
      if mapped.value != resolved then Err(IllegalState) else Ok(m)
    else if urlPath == "/" then Ok(m.(rootHandler := Some(resolved)))
    else if urlPath == "/*" then Ok(m.(defaultHandler := Some(resolved)))
    else
      LinkedMaps.PutKeepsDistinct(m.handlerMap, urlPath, resolved);
      Ok(m.(handlerMap := LinkedMaps.Put(m.handlerMap, urlPath, resolved)))
  }

  /**
   * An ordinary path is inserted into the handler map: afterwards it maps
   * to the resolved handler, every other path keeps its handler, and the
   * root and default handlers are untouched. If the handler cannot be
   * resolved, registration fails with the context's exception.
   */
  lemma RegisterOrdinaryPath(m: Mapping, urlPath: string, handler: Handler, ctx: Context, other: string)
    requires LinkedMaps.Get(m.handlerMap, urlPath).None? && urlPath != "/" && urlPath != "/*"
    ensures var res := ResolveForRegistration(m, handler, ctx);
            res.Err? ==> RegisterHandler(m, urlPath, handler, ctx) == Err(res.error)
    ensures var res := ResolveForRegistration(m, handler, ctx);
            res.Ok? ==>
              && RegisterHandler(m, urlPath, handler, ctx).Ok?
              && var m' := RegisterHandler(m, urlPath, handler, ctx).value;
                 && LinkedMaps.Get(m'.handlerMap, urlPath) == Some(res.value)
                 && (other != urlPath ==> LinkedMaps.Get(m'.handlerMap, other) == LinkedMaps.Get(m.handlerMap, other))
                 && m'.rootHandler == m.rootHandler && m'.defaultHandler == m.defaultHandler
  {
    var res := ResolveForRegistration(m, handler, ctx);
    if res.Ok? {
      LinkedMaps.GetPut(m.handlerMap, urlPath, res.value, urlPath);
      LinkedMaps.GetPut(m.handlerMap, urlPath, res.value, other);
    }
  }

  /**
   * The special paths never reach the handler map, so they are never
   * checked for conflicts: a second registration of "/" silently replaces
   * the root handler, whatever it was.
   */
  lemma RootRegistrationReplaces(m: Mapping, h1: Handler, h2: Handler, ctx: Context)
    requires Valid(m)
    ensures ResolveForRegistration(m, h1, ctx).Ok? ==> RegisterHandler(m, "/", h1, ctx).Ok?
    ensures ResolveForRegistration(m, h1, ctx).Ok? && ResolveForRegistration(m, h2, ctx).Ok? ==>
              var m1 := RegisterHandler(m, "/", h1, ctx).value;
              && RegisterHandler(m1, "/", h2, ctx).Ok?
              && RegisterHandler(m1, "/", h2, ctx).value.rootHandler == Some(ResolveForRegistration(m, h2, ctx).value)
              && RegisterHandler(m1, "/", h2, ctx).value.handlerMap == m.handlerMap
  {
    if ResolveForRegistration(m, h1, ctx).Ok? {
      var m1 := RegisterHandler(m, "/", h1, ctx).value;
      assert ResolveForRegistration(m1, h2, ctx) == ResolveForRegistration(m, h2, ctx);
    }
  }

  /**
   * What one successful registration changes in a valid mapping: an
   * ordinary path maps to the resolved handler, "/" sets the root handler,
   * the catch-all path the default handler, and nothing else changes.
   */
  lemma RegisterHandlerEffect(m: Mapping, urlPath: string, handler: Handler, ctx: Context, p: string)
    requires Valid(m)
    ensures var r := RegisterHandler(m, urlPath, handler, ctx);
            r.Ok? ==>
              && ResolveForRegistration(m, handler, ctx).Ok?
              && var h := ResolveForRegistration(m, handler, ctx).value;
                 && LinkedMaps.Get(r.value.handlerMap, p)
                    == (if p == urlPath && p != "/" && p != "/*" then Some(h) else LinkedMaps.Get(m.handlerMap, p))
                 && r.value.rootHandler == (if urlPath == "/" then Some(h) else m.rootHandler)
                 && r.value.defaultHandler == (if urlPath == "/*" then Some(h) else m.defaultHandler)
  {
    var res := ResolveForRegistration(m, handler, ctx);
    if res.Ok? && LinkedMaps.Get(m.handlerMap, urlPath).None? && urlPath != "/" && urlPath != "/*" {
      LinkedMaps.GetPut(m.handlerMap, urlPath, res.value, p);
    }
  }

  /** registerHandler(String[], String): stops at the first failure, keeping what was registered. */
  function RegisterHandlers(m: Mapping, urlPaths: seq<string>, beanName: Name, ctx: Context)
    : (r: (Mapping, Option<Error>))
    ensures Valid(m) ==> Valid(r.0)
    ensures r.0.lazyInitHandlers == m.lazyInitHandlers
    ensures r.1.Some? ==>
              r.1.value == IllegalState || ResolveForRegistration(m, HandlerName(beanName), ctx) == Err(r.1.value)
    decreases |urlPaths|
  {
    if |urlPaths| == 0 then (m, None)
    else
      match RegisterHandler(m, urlPaths[0], HandlerName(beanName), ctx)
      case Err(e) => (m, Some(e))
      case Ok(m') =>
        assert ResolveForRegistration(m', HandlerName(beanName), ctx) == ResolveForRegistration(m, HandlerName(beanName), ctx);
        RegisterHandlers(m', urlPaths[1..], beanName, ctx)
  }

  /**
   * When every path registers, each ordinary path maps to the resolved
   * handler, "/" sets the root handler, the catch-all path the default handler, and
   * paths not listed keep what they had.
   */
  lemma {:induction false} RegisterHandlersRegisters(m: Mapping, urlPaths: seq<string>, beanName: Name,
                                                     ctx: Context, p: string)
    requires Valid(m)
    ensures var r := RegisterHandlers(m, urlPaths, beanName, ctx);
            var res := ResolveForRegistration(m, HandlerName(beanName), ctx);
            r.1.None? ==>
              && (|urlPaths| > 0 ==> res.Ok?)
              && (p in urlPaths && p != "/" && p != "/*" ==> res.Ok? && LinkedMaps.Get(r.0.handlerMap, p) == Some(res.value))
              && (p !in urlPaths ==> LinkedMaps.Get(r.0.handlerMap, p) == LinkedMaps.Get(m.handlerMap, p))
              && ("/" in urlPaths ==> res.Ok? && r.0.rootHandler == Some(res.value))
              && ("/" !in urlPaths ==> r.0.rootHandler == m.rootHandler)
              && ("/*" in urlPaths ==> res.Ok? && r.0.defaultHandler == Some(res.value))
              && ("/*" !in urlPaths ==> r.0.defaultHandler == m.defaultHandler)
    decreases |urlPaths|
  {
    if |urlPaths| > 0 {
      var u, rest := urlPaths[0], urlPaths[1..];
      assert forall x :: x in urlPaths <==> x == u || x in rest;
      var step := RegisterHandler(m, u, HandlerName(beanName), ctx);
      if step.Ok? {
        var m' := step.value;
        assert ResolveForRegistration(m', HandlerName(beanName), ctx) == ResolveForRegistration(m, HandlerName(beanName), ctx);
        RegisterHandlerEffect(m, u, HandlerName(beanName), ctx, p);
        RegisterHandlersRegisters(m', rest, beanName, ctx, p);
      }
    }
  }

  /**
   * A failed registration stopped at some path: the paths before it all
   * registered, giving the mapping that is kept, and registering that path
   * on it raised the reported exception.
   */
  lemma {:induction false} RegisterHandlersStopsAtFailure(m: Mapping, urlPaths: seq<string>, beanName: Name, ctx: Context)
    ensures var r := RegisterHandlers(m, urlPaths, beanName, ctx);
            r.1.Some? ==>
              exists j :: 0 <= j < |urlPaths|
                          && RegisterHandlers(m, urlPaths[..j], beanName, ctx) == (r.0, None)
                          && RegisterHandler(r.0, urlPaths[j], HandlerName(beanName), ctx) == Err(r.1.value)
    decreases |urlPaths|
  {
    var r := RegisterHandlers(m, urlPaths, beanName, ctx);
    if r.1.Some? {
      var step := RegisterHandler(m, urlPaths[0], HandlerName(beanName), ctx);
      if step.Err? {
        assert urlPaths[..0] == [];
        assert RegisterHandlers(m, urlPaths[..0], beanName, ctx) == (r.0, None);
      } else {
        var rest := urlPaths[1..];
        RegisterHandlersStopsAtFailure(step.value, rest, beanName, ctx);
        var j :| 0 <= j < |rest|
                 && RegisterHandlers(step.value, rest[..j], beanName, ctx) == (r.0, None)
                 && RegisterHandler(r.0, rest[j], HandlerName(beanName), ctx) == Err(r.1.value);
        assert urlPaths[..j + 1][0] == urlPaths[0];
        assert urlPaths[..j + 1][1..] == rest[..j];
        assert RegisterHandlers(m, urlPaths[..j + 1], beanName, ctx) == (r.0, None);
        assert urlPaths[j + 1] == rest[j];
      }
    }
  }

  /** The handler object behind a handler: a bean name is looked up in the context, which may throw. */
  function Obtain(h: Handler, ctx: Context): (r: Result<Handler>)
    ensures r.Ok? ==> r.value.HandlerBean?
    ensures h.HandlerBean? ==> r == Ok(h)
    ensures h.HandlerName? ==> (r.Ok? <==> ctx.getBean(h.name).Ok?)
    ensures h.HandlerName? && r.Ok? ==> r.value.beanId == ctx.getBean(h.name).value
    ensures h.HandlerName? && r.Err? ==> r.error == ctx.getBean(h.name).error
  {
    if h.HandlerName? then
      var id :- ctx.getBean(h.name);
      Ok(HandlerBean(id))
    else Ok(h)
  }

  /** getDirectMatch: the handler registered under exactly this path. */
  function GetDirectMatch(m: Mapping, urlPath: string, ctx: Context): (r: Result<Option<Chain>>)
    ensures urlPath !in LinkedMaps.Keys(m.handlerMap) ==> r == Ok(None)
    ensures urlPath in LinkedMaps.Keys(m.handlerMap) ==>
              var o := Obtain(LinkedMaps.Get(m.handlerMap, urlPath).value, ctx);
              && (o.Err? ==> r == Err(o.error))
              && (o.Ok? ==> r == Ok(Some(Chain(o.value, urlPath, urlPath, []))))
  {
    match LinkedMaps.Get(m.handlerMap, urlPath)
    case None => Ok(None)
    case Some(h) =>
      var handler :- Obtain(h, ctx);
      Ok(Some(Chain(handler, urlPath, urlPath, [])))
  }

  /** How one registered pattern matches the lookup path: itself, its slash variant, or not at all. */
  function MatchOf(registered: string, lookupPath: string, trailing: bool, pm: Matcher): (r: Option<string>)
    ensures r.Some? ==> r.value == registered || (r.value == registered + "/" && !EndsWith(registered, "/"))
  {
    if pm.matches(registered, lookupPath) then Some(registered)
    else if trailing && !EndsWith(registered, "/") && pm.matches(registered + "/", lookupPath)
    then Some(registered + "/")
    else None
  }

  /** The matching patterns, in handler-map order. */
  function MatchingPatterns(keys: seq<string>, lookupPath: string, trailing: bool, pm: Matcher): (ps: seq<string>)
    ensures forall p :: p in ps <==> exists k :: k in keys && MatchOf(k, lookupPath, trailing, pm) == Some(p)
    decreases |keys|
  {
    if |keys| == 0 then []
    else
      var rest := MatchingPatterns(keys[1..], lookupPath, trailing, pm);
      assert forall k :: k in keys <==> k == keys[0] || k in keys[1..];
      match MatchOf(keys[0], lookupPath, trailing, pm)
      case None => rest
      case Some(p) => [p] + rest
  }

  /** `putAll` of the variables of every pattern comparing equal to the best match, in order. */
  function MergeVariables(acc: seq<(string, string)>, ps: seq<string>, best: string,
                          lookupPath: string, pm: Matcher): seq<(string, string)>
    decreases |ps|
  {
    if |ps| == 0 then acc
    else
      var acc' := if pm.rank(ps[0], lookupPath) == pm.rank(best, lookupPath)
                  then LinkedMaps.PutAll(acc, pm.extractVariables(ps[0], lookupPath)) else acc;
      MergeVariables(acc', ps[1..], best, lookupPath, pm)
  }

  /** The variables of every pattern ranked equal to the best match, one list after the other. */
  function EqualRankedVariables(ps: seq<string>, best: string, lookupPath: string, pm: Matcher): seq<(string, string)>
    decreases |ps|
  {
    if |ps| == 0 then []
    else
      (if pm.rank(ps[0], lookupPath) == pm.rank(best, lookupPath) then pm.extractVariables(ps[0], lookupPath) else [])
      + EqualRankedVariables(ps[1..], best, lookupPath, pm)
  }

  /** The merge is one putAll of those variables: a later definition of a variable overrides an earlier one. */
  lemma {:induction false} MergeVariablesIsPutAll(acc: seq<(string, string)>, ps: seq<string>, best: string,
                                                  lookupPath: string, pm: Matcher)
    ensures MergeVariables(acc, ps, best, lookupPath, pm)
            == LinkedMaps.PutAll(acc, EqualRankedVariables(ps, best, lookupPath, pm))
    decreases |ps|
  {
    if |ps| > 0 {
      var xs := if pm.rank(ps[0], lookupPath) == pm.rank(best, lookupPath)
                then pm.extractVariables(ps[0], lookupPath) else [];
      var acc' := LinkedMaps.PutAll(acc, xs);
      assert xs == [] ==> acc' == acc;
      MergeVariablesIsPutAll(acc', ps[1..], best, lookupPath, pm);
      LinkedMaps.PutAllAppend(acc, xs, EqualRankedVariables(ps[1..], best, lookupPath, pm));
    }
  }

  /**
   * A variable is in the merged map exactly when some pattern ranked equal
   * to the best match defines it (or it was there before).
   */
  lemma {:induction false} MergeVariablesDefines(acc: seq<(string, string)>, ps: seq<string>, best: string,
                                                 lookupPath: string, pm: Matcher, v: string)
    ensures LinkedMaps.Get(MergeVariables(acc, ps, best, lookupPath, pm), v).Some?
            <==> LinkedMaps.Get(acc, v).Some?
                 || exists p :: p in ps && pm.rank(p, lookupPath) == pm.rank(best, lookupPath)
                                && v in LinkedMaps.Keys(pm.extractVariables(p, lookupPath))
    decreases |ps|
  {
    if |ps| > 0 {
      var p0 := ps[0];
      var acc' := if pm.rank(p0, lookupPath) == pm.rank(best, lookupPath)
                  then LinkedMaps.PutAll(acc, pm.extractVariables(p0, lookupPath)) else acc;
      MergeVariablesDefines(acc', ps[1..], best, lookupPath, pm, v);
      LinkedMaps.GetPutAll(acc, pm.extractVariables(p0, lookupPath), v);
      assert forall p :: p in ps <==> p == p0 || p in ps[1..];
    }
  }

  /** lookupHandler(String, request). */
  function LookupHandler(m: Mapping, lookupPath: string, ctx: Context, pm: Matcher): (r: Result<Option<Chain>>)
  {
    var direct :- GetDirectMatch(m, lookupPath, ctx);
    if direct.Some? then Ok(direct)
    else
      var matching := MatchingPatterns(LinkedMaps.Keys(m.handlerMap), lookupPath, m.useTrailingSlashMatch, pm);
      if |matching| == 0 then Ok(None)
      else
        var sorted := OrderSort.SortByRank(matching, p => pm.rank(p, lookupPath));
        var best := sorted[0];
        var h := LinkedMaps.Get(m.handlerMap, best);
        var h' := if h.None? && EndsWith(best, "/") then LinkedMaps.Get(m.handlerMap, best[..|best| - 1]) else h;
        if h'.None? then Err(IllegalState)
        else
          var handler :- Obtain(h'.value, ctx);
          var vars := MergeVariables([], sorted, best, lookupPath, pm);
          Ok(Some(Chain(handler, best, pm.pathWithinPattern(best, lookupPath), vars)))
  }

  /**
   * An exact key wins before any pattern is tried; if its handler bean
   * cannot be obtained, lookup fails with the context's exception.
   */
  lemma DirectMatchFirst(m: Mapping, lookupPath: string, ctx: Context, pm: Matcher)
    requires lookupPath in LinkedMaps.Keys(m.handlerMap)
    ensures var o := Obtain(LinkedMaps.Get(m.handlerMap, lookupPath).value, ctx);
            && (o.Ok? ==> LookupHandler(m, lookupPath, ctx, pm) == Ok(Some(Chain(o.value, lookupPath, lookupPath, []))))
            && (o.Err? ==> LookupHandler(m, lookupPath, ctx, pm) == Err(o.error))
  {
  }

  /** With no exact key and no matching pattern, lookup finds nothing. */
  lemma NoMatchNoHandler(m: Mapping, lookupPath: string, ctx: Context, pm: Matcher)
    requires lookupPath !in LinkedMaps.Keys(m.handlerMap)
    requires forall k :: k in LinkedMaps.Keys(m.handlerMap) ==>
               MatchOf(k, lookupPath, m.useTrailingSlashMatch, pm).None?
    ensures LookupHandler(m, lookupPath, ctx, pm) == Ok(None)
  {
    var matching := MatchingPatterns(LinkedMaps.Keys(m.handlerMap), lookupPath, m.useTrailingSlashMatch, pm);
    if |matching| > 0 {
      assert matching[0] in matching;
    }
  }

  /**
   * Pattern lookup: the best match is the earliest matching pattern of
   * least rank; its handler is the one registered under it (or, for a
   * trailing-slash variant, under the pattern without the slash), so the
   * IllegalStateException branch is never taken and lookup fails only if
   * that handler bean cannot be obtained; and the URI variables are those
   * of the patterns ranked equal to the best match.
   */
  lemma PatternLookup(m: Mapping, lookupPath: string, ctx: Context, pm: Matcher, v: string)
    requires lookupPath !in LinkedMaps.Keys(m.handlerMap)
    ensures var matching := MatchingPatterns(LinkedMaps.Keys(m.handlerMap), lookupPath, m.useTrailingSlashMatch, pm);
            var r := LookupHandler(m, lookupPath, ctx, pm);
            && (|matching| == 0 ==> r == Ok(None))
            && (|matching| > 0 ==>
                  var best := OrderSort.FirstMinimal(matching, p => pm.rank(p, lookupPath));
                  && (best !in LinkedMaps.Keys(m.handlerMap) ==>
                        EndsWith(best, "/") && best[..|best| - 1] in LinkedMaps.Keys(m.handlerMap))
                  && var raw := if best in LinkedMaps.Keys(m.handlerMap) then LinkedMaps.Get(m.handlerMap, best).value
                                else LinkedMaps.Get(m.handlerMap, best[..|best| - 1]).value;
                     var o := Obtain(raw, ctx);
                     && (o.Err? ==> r == Err(o.error))
                     && (o.Ok? ==>
                           && r.Ok? && r.value.Some?
                           && r.value.value.bestMatchingPattern == best
                           && r.value.value.handler == o.value
                           && (LinkedMaps.Get(r.value.value.uriTemplateVariables, v).Some? <==>
                                 exists p :: p in matching && pm.rank(p, lookupPath) == pm.rank(best, lookupPath)
                                             && v in LinkedMaps.Keys(pm.extractVariables(p, lookupPath)))))
  {
    var matching := MatchingPatterns(LinkedMaps.Keys(m.handlerMap), lookupPath, m.useTrailingSlashMatch, pm);
    if |matching| > 0 {
      var rank := p => pm.rank(p, lookupPath);
      var sorted := OrderSort.SortByRank(matching, rank);
      OrderSort.SortHeadIsFirstMinimal(matching, rank);
      var best := sorted[0];
      BestIsRegistered(m, lookupPath, pm, best);
      assert LinkedMaps.Get(m.handlerMap, best).None? ==>
               EndsWith(best, "/") && LinkedMaps.Get(m.handlerMap, best[..|best| - 1]).Some?;
      forall p ensures p in sorted <==> p in matching {
        OrderSort.SortKeepsElements(matching, rank, p);
      }
      MergedVariables(sorted, matching, best, lookupPath, pm, v);
    }
  }

  /**
   * The value of a URI variable found by pattern lookup: the one given by
   * the last pattern, in sorted order, that ranks equal to the best match
   * and defines the variable.
   */
  lemma PatternVariableValue(m: Mapping, lookupPath: string, ctx: Context, pm: Matcher, v: string)
    requires lookupPath !in LinkedMaps.Keys(m.handlerMap)
    ensures var matching := MatchingPatterns(LinkedMaps.Keys(m.handlerMap), lookupPath, m.useTrailingSlashMatch, pm);
            var r := LookupHandler(m, lookupPath, ctx, pm);
            |matching| > 0 ==>
              var sorted := OrderSort.SortByRank(matching, p => pm.rank(p, lookupPath));
              var vars := EqualRankedVariables(sorted, sorted[0], lookupPath, pm);
              r.Ok? ==>
              && r.value.Some?
              && (v in LinkedMaps.Keys(vars) ==>
                    LinkedMaps.Get(r.value.value.uriTemplateVariables, v) == Some(LinkedMaps.LastValue(vars, v)))
              && (v !in LinkedMaps.Keys(vars) ==> LinkedMaps.Get(r.value.value.uriTemplateVariables, v).None?)
  {
    var matching := MatchingPatterns(LinkedMaps.Keys(m.handlerMap), lookupPath, m.useTrailingSlashMatch, pm);
    if |matching| > 0 && LookupHandler(m, lookupPath, ctx, pm).Ok? {
      LookupVariables(m, lookupPath, ctx, pm);
      var sorted := OrderSort.SortByRank(matching, p => pm.rank(p, lookupPath));
      MergeVariablesIsPutAll([], sorted, sorted[0], lookupPath, pm);
      LinkedMaps.GetPutAll([], EqualRankedVariables(sorted, sorted[0], lookupPath, pm), v);
    }
  }

  /** A successful pattern lookup carries the merged variables of the sorted matching patterns. */
  lemma LookupVariables(m: Mapping, lookupPath: string, ctx: Context, pm: Matcher)
    requires lookupPath !in LinkedMaps.Keys(m.handlerMap)
    ensures var matching := MatchingPatterns(LinkedMaps.Keys(m.handlerMap), lookupPath, m.useTrailingSlashMatch, pm);
            var r := LookupHandler(m, lookupPath, ctx, pm);
            |matching| > 0 && r.Ok? ==>
              var sorted := OrderSort.SortByRank(matching, p => pm.rank(p, lookupPath));
              r.value.Some? && r.value.value.uriTemplateVariables == MergeVariables([], sorted, sorted[0], lookupPath, pm)
  {
    var matching := MatchingPatterns(LinkedMaps.Keys(m.handlerMap), lookupPath, m.useTrailingSlashMatch, pm);
    assert GetDirectMatch(m, lookupPath, ctx) == Ok(None);
    if |matching| > 0 {
      var sorted := OrderSort.SortByRank(matching, p => pm.rank(p, lookupPath));
      var best := sorted[0];
      var h := LinkedMaps.Get(m.handlerMap, best);
      var h' := if h.None? && EndsWith(best, "/") then LinkedMaps.Get(m.handlerMap, best[..|best| - 1]) else h;
      if h'.Some? && Obtain(h'.value, ctx).Ok? {
        var vars := MergeVariables([], sorted, best, lookupPath, pm);
        assert LookupHandler(m, lookupPath, ctx, pm)
               == Ok(Some(Chain(Obtain(h'.value, ctx).value, best, pm.pathWithinPattern(best, lookupPath), vars)));
      }
    }
  }

  /** A matching pattern is a registered key, or a registered key plus the trailing slash. */
  lemma BestIsRegistered(m: Mapping, lookupPath: string, pm: Matcher, best: string)
    requires best in MatchingPatterns(LinkedMaps.Keys(m.handlerMap), lookupPath, m.useTrailingSlashMatch, pm)
    ensures best !in LinkedMaps.Keys(m.handlerMap) ==>
              EndsWith(best, "/") && best[..|best| - 1] in LinkedMaps.Keys(m.handlerMap)
  {
    var k :| k in LinkedMaps.Keys(m.handlerMap) && MatchOf(k, lookupPath, m.useTrailingSlashMatch, pm) == Some(best);
    if best != k {
      assert best == k + "/";
      assert best[..|best| - 1] == k;
      assert EndsWith(best, "/") by {
        assert best[|best| - 1..] == "/";
      }
    }
  }

  /** The merged variables over the sorted patterns are those of the equally ranked matching patterns. */
  lemma MergedVariables(sorted: seq<string>, matching: seq<string>, best: string, lookupPath: string, pm: Matcher, v: string)
    requires forall p :: p in sorted <==> p in matching
    ensures LinkedMaps.Get(MergeVariables([], sorted, best, lookupPath, pm), v).Some? <==>
              exists p :: p in matching && pm.rank(p, lookupPath) == pm.rank(best, lookupPath)
                          && v in LinkedMaps.Keys(pm.extractVariables(p, lookupPath))
  {
    MergeVariablesDefines([], sorted, best, lookupPath, pm, v);
  }

  /** getHandlerInternal: lookup, else the root handler for "/", else the default handler. */
  function GetHandlerInternal(m: Mapping, lookupPath: string, ctx: Context, pm: Matcher): (r: Result<Option<Chain>>)
    ensures LookupHandler(m, lookupPath, ctx, pm).Err? ==> r == LookupHandler(m, lookupPath, ctx, pm)
    ensures LookupHandler(m, lookupPath, ctx, pm) == Ok(None) ==>
              var raw := if lookupPath == "/" && m.rootHandler.Some? then m.rootHandler else m.defaultHandler;
              && (raw.None? ==> r == Ok(None))
              && (raw.Some? && Obtain(raw.value, ctx).Err? ==> r == Err(Obtain(raw.value, ctx).error))
              && (raw.Some? && Obtain(raw.value, ctx).Ok? ==>
                    r == Ok(Some(Chain(Obtain(raw.value, ctx).value, lookupPath, lookupPath, []))))
    ensures LookupHandler(m, lookupPath, ctx, pm).Ok? && LookupHandler(m, lookupPath, ctx, pm).value.Some? ==>
              r == LookupHandler(m, lookupPath, ctx, pm)
  {
    var handler :- LookupHandler(m, lookupPath, ctx, pm);
    if handler.Some? then Ok(handler)
    else
      var raw := if lookupPath == "/" then m.rootHandler else None;
      var raw' := if raw.None? then m.defaultHandler else raw;
      if raw'.None? then Ok(None)
      else
        var h :- Obtain(raw'.value, ctx);
        Ok(Some(Chain(h, lookupPath, lookupPath, [])))
  }

  /** match(request, pattern): the pattern, its slash variant, or null. */
  function Match(m: Mapping, pattern: string, lookupPath: string, pm: Matcher): (r: Option<string>)
  {
    if pm.matches(pattern, lookupPath) then Some(pattern)
    else if m.useTrailingSlashMatch && !EndsWith(pattern, "/") && pm.matches(pattern + "/", lookupPath)
    then Some(pattern + "/")
    else None
  }

  /**
   * match and lookupHandler apply the same trailing-slash rule: a
   * registered pattern contributes to the matching patterns exactly what
   * match returns for it.
   */
  lemma MatchAgreesWithLookup(m: Mapping, lookupPath: string, pm: Matcher, p: string)
    ensures p in MatchingPatterns(LinkedMaps.Keys(m.handlerMap), lookupPath, m.useTrailingSlashMatch, pm)
            <==> exists k :: k in LinkedMaps.Keys(m.handlerMap) && Match(m, k, lookupPath, pm) == Some(p)
  {
    assert forall k :: Match(m, k, lookupPath, pm) == MatchOf(k, lookupPath, m.useTrailingSlashMatch, pm);
  }
}
