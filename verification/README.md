# Spring Framework core decisions, modelled in Dafny

This project models the sequential decision logic of three parts of the
Spring Framework. The collaborators Spring calls into are parameters of the
model: bean lookup, bean creation, expression evaluation, type conversion,
class loading, path matching and its comparator, and a converter's `canRead`
and `read`. The rest is written out; what is proved about it is listed
under "Model", and what is not modelled under "Left out".

- **IoC container (spring-beans, spring-context)**
  - `PostProcessorRegistrationDelegate` is modelled in `PostProcessorDelegate`,
    `BeanPostProcessorRegistration` and `OrderSort`. It covers:
    - the staged bean-factory post-processor pipeline (supplied processors,
      then PriorityOrdered, Ordered and the re-discovery loop, then the
      factory callbacks, then the metadata-cache clear);
    - bean-post-processor registration, with the checker first, the internal
      processors re-appended and the listener detector last;
    - the `BeanPostProcessorChecker`.
  - The object cache of `FactoryBeanRegistrySupport` is modelled in
    `FactoryBeanCache`. It sits over a set of singleton names, an in-creation
    set and an exclusions set.
  - `BeanDefinitionValueResolver` is modelled in `ValueResolver`. It is a
    dispatch over value kinds that threads a state: the names in use and a
    log of dependent edges, containment edges, `getBean` calls and
    `createBean` calls.
  - The field rules of `RootBeanDefinition` are modelled in `RootDefinition`.
- **AOP helpers**
  - `ScopedProxyUtils` is modelled in `ScopedProxy`.
  - `AspectJProxyUtils` is modelled in `AspectJChain`.
  - `BeanFactoryAdvisorRetrievalHelper` is modelled in `AdvisorRetrieval`.
  - `AutoProxyRegistrar` is modelled in `AutoProxyRegistrar`.
- **Web MVC dispatch**
  - `AbstractUrlHandlerMapping` is modelled in `UrlHandlerMapping`.
  - `BeanNameUrlHandlerMapping` is modelled in `BeanNameUrl`.
  - `HandlerMethodArgumentResolverComposite` is modelled in `ResolverComposite`.
  - `RequestParamMapMethodArgumentResolver` is modelled in `RequestParamMap`.
  - The reading decisions of `AbstractMessageConverterMethodArgumentResolver`
    are modelled in `MessageConverterResolver`.
  - `RequestResponseBodyMethodProcessor` is modelled in `RequestBodyProcessor`.

`Common` holds `Option`, `Result`, the exception kinds as an `Error`
datatype, and string helpers. `LinkedMaps` models `LinkedHashMap` and
`LinkedMultiValueMap` as association lists. `OrderSort` is the stable sort
that `List.sort` performs with a comparator, given as a rank function.

Several predicates state their source method's condition directly and carry
no row of their own; the members in the table use them:
- `ScopedProxy.IsScopedTarget`
- `AspectJChain.IsAspectJAdvice`
- `RequestParamMap.SupportsParameter`
- `RequestBodyProcessor.SupportsParameter`, `SupportsReturnType` and `CheckRequired`
- `MessageConverterResolver.CanRead` and `IsBindExceptionRequired`
- `RootDefinition.IsFactoryMethod` and the `IsExternallyManaged…` predicates

## Model

| member | source | states |
|---|---|---|
| ScopedProxy.TargetBeanName | spring-aop/src/main/java/org/springframework/aop/scope/ScopedProxyUtils.java:105-107 | The target name is the original name behind the "scopedTarget." prefix (constant at line 41), so it is exactly the prefix length longer. |
| ScopedProxy.OriginalBeanName | spring-aop/src/main/java/org/springframework/aop/scope/ScopedProxyUtils.java:121-125 | Succeeds exactly for a non-null name that carries the prefix and fails with IllegalArgumentException otherwise. The result is the prefix length shorter. |
| ScopedProxy.OriginalOfTarget | spring-aop/src/main/java/org/springframework/aop/scope/ScopedProxyUtils.java:105-135 | Round trip: every target name is a scoped target, and stripping its prefix gives back the original name. |
| ScopedProxy.TargetOfOriginal | spring-aop/src/main/java/org/springframework/aop/scope/ScopedProxyUtils.java:121-125 | Opposite round trip: prefixing the original of a scoped-target name gives back that name. |
| ScopedProxy.TargetBeanNameInjective | spring-aop/src/main/java/org/springframework/aop/scope/ScopedProxyUtils.java:105-107 | Different bean names get different target names. |
| ScopedProxy.HiddenTarget | spring-aop/src/main/java/org/springframework/aop/scope/ScopedProxyUtils.java:73-89 | The registered target is neither an autowire candidate nor primary. It carries the preserve-target-class attribute when class proxying is requested. Nothing else about it changes. |
| ScopedProxy.CreateScopedProxy | spring-aop/src/main/java/org/springframework/aop/scope/ScopedProxyUtils.java:57-96 | The holder keeps the original name and aliases. The registry gains exactly the hidden target under the target name. |
| ScopedProxy.CreateScopedProxyContract | spring-aop/src/main/java/org/springframework/aop/scope/ScopedProxyUtils.java:57-96 | The proxy is a ScopedProxyFactoryBean. Its targetBeanName property is the registered prefixed name, whose original is the holder's name. It decorates the target and originates from it. It copies autowire-candidate, primary, qualifiers, role and source from the definition as it was before clearing. A "proxyTargetClass"=false property is present exactly when class proxying is off. |
| ScopedProxy.CreateScopedProxyRegistry | spring-aop/src/main/java/org/springframework/aop/scope/ScopedProxyUtils.java:91-92 | The registry's keys grow by exactly the target name, and every other registered definition is unchanged. |
| AspectJChain.MakeAdvisorChainAspectJCapable | spring-aop/src/main/java/org/springframework/aop/aspectj/AspectJProxyUtils.java:44-64 | The expose-invocation advisor is added at index 0 exactly when some advisor is AspectJ advice and the chain lacks it. Otherwise the chain is unchanged (an empty chain included). The result never needs the advisor again, so a second call returns false. |
| AdvisorRetrieval.Collect | spring-aop/src/main/java/org/springframework/aop/framework/autoproxy/BeanFactoryAdvisorRetrievalHelper.java:80-111 | A failure comes only from an eligible name that is not in creation, whose getBean failed in a way that cannot be skipped, and the error is the exception getBean threw. A success has at most one advisor per name. |
| AdvisorRetrieval.CollectAppend | spring-aop/src/main/java/org/springframework/aop/framework/autoproxy/BeanFactoryAdvisorRetrievalHelper.java:81-110 | The loop distributes over concatenation of names: results follow name order, and the first failure wins. |
| AdvisorRetrieval.SkippedNamesContributeNothing | spring-aop/src/main/java/org/springframework/aop/framework/autoproxy/BeanFactoryAdvisorRetrievalHelper.java:82-88 | An ineligible name, or a name currently in creation, adds nothing and raises nothing. |
| AdvisorRetrieval.CollectOne | spring-aop/src/main/java/org/springframework/aop/framework/autoproxy/BeanFactoryAdvisorRetrievalHelper.java:82-108 | For one name: an ineligible name or one in creation is skipped; a created advisor is added; a failure whose root cause is a bean in creation is skipped; any other failure's exception is rethrown unchanged. |
| AdvisorRetrieval.CollectAllCreated | spring-aop/src/main/java/org/springframework/aop/framework/autoproxy/BeanFactoryAdvisorRetrievalHelper.java:80-111 | When every name is eligible, not in creation, and its bean can be created, the result is those advisors, one per name, in name order. |
| AdvisorRetrieval.FindAdvisorBeans | spring-aop/src/main/java/org/springframework/aop/framework/autoproxy/BeanFactoryAdvisorRetrievalHelper.java:67-78 | The name cache is filled on the first call and kept after that. No names means an empty result. |
| AdvisorRetrieval.CachedNamesAreReused | spring-aop/src/main/java/org/springframework/aop/framework/autoproxy/BeanFactoryAdvisorRetrievalHelper.java:69-75 | Once the names are cached, later calls ignore the factory's name query and repeat the earlier result. |
| AdvisorRetrieval.CollectIgnoresNameQuery | spring-aop/src/main/java/org/springframework/aop/framework/autoproxy/BeanFactoryAdvisorRetrievalHelper.java:81-110 | The loop depends only on getBean and the in-creation set, not on the name query. |
| AutoProxyRegistrar.Scan | spring-context/src/main/java/org/springframework/context/annotation/AutoProxyRegistrar.java:62-101 | A candidate is found exactly when some annotation has both typed attributes. The creator is registered exactly when some candidate is in PROXY mode. The info log happens exactly when nothing was found. |
| AutoProxyRegistrar.RegisterBeanDefinitions | spring-context/src/main/java/org/springframework/context/annotation/AutoProxyRegistrar.java:58-102 | Starting with nothing found, the same three equivalences hold over all imported annotation types. |
| AutoProxyRegistrar.ScanForces | spring-context/src/main/java/org/springframework/context/annotation/AutoProxyRegistrar.java:79-88 | Class proxying is forced exactly when some candidate is PROXY mode with proxyTargetClass=true. |
| AutoProxyRegistrar.StopsAtForcingCandidate | spring-context/src/main/java/org/springframework/context/annotation/AutoProxyRegistrar.java:83-87 | After a forcing candidate, the remaining annotations make no difference to the outcome. |
| AutoProxyRegistrar.NoCandidateNoChange | spring-context/src/main/java/org/springframework/context/annotation/AutoProxyRegistrar.java:91-101 | Without a candidate the registry state is unchanged and the info line is logged. |
| BeanNameUrl.UrlNames | spring-webmvc/src/main/java/org/springframework/web/servlet/handler/BeanNameUrlHandlerMapping.java:64-68 | Keeps exactly the aliases starting with "/", and is no longer than its input. |
| BeanNameUrl.DetermineUrlsForHandler | spring-webmvc/src/main/java/org/springframework/web/servlet/handler/BeanNameUrlHandlerMapping.java:56-70 | The URLs are exactly the bean name and aliases that start with "/". There are at most 1 + the number of aliases. A URL bean name comes first; otherwise the result is the URL aliases. |
| BeanNameUrl.UrlNamesAppend | spring-webmvc/src/main/java/org/springframework/web/servlet/handler/BeanNameUrlHandlerMapping.java:57-69 | Alias filtering distributes over concatenation, so alias order is kept. |
| BeanNameUrl.DetermineUrlsShape | spring-webmvc/src/main/java/org/springframework/web/servlet/handler/BeanNameUrlHandlerMapping.java:59-68 | The result is the bean name if it is a URL, followed by the URL aliases in alias order. |
| ResolverComposite.AddResolver | spring-web/src/main/java/org/springframework/web/method/support/HandlerMethodArgumentResolverComposite.java:50-53 | Appends the resolver at the end and leaves the cache alone. |
| ResolverComposite.AddResolvers | spring-web/src/main/java/org/springframework/web/method/support/HandlerMethodArgumentResolverComposite.java:72-79 | A null list is a no-op. Otherwise the list is appended in order and the cache is left alone. |
| ResolverComposite.Clear | spring-web/src/main/java/org/springframework/web/method/support/HandlerMethodArgumentResolverComposite.java:93-95 | Empties the resolver list and keeps the cache. |
| ResolverComposite.FirstSupporting | spring-web/src/main/java/org/springframework/web/method/support/HandlerMethodArgumentResolverComposite.java:134-140 | A found resolver is registered and supports the parameter, and no resolver registered before it does. Nothing is found exactly when no registered resolver supports it. |
| ResolverComposite.GetArgumentResolver | spring-web/src/main/java/org/springframework/web/method/support/HandlerMethodArgumentResolverComposite.java:129-143 | A cache hit answers from the cache and changes nothing. A miss returns the first supporting resolver in list order and caches it, if there is one. |
| ResolverComposite.LookupTwice | spring-web/src/main/java/org/springframework/web/method/support/HandlerMethodArgumentResolverComposite.java:131-139 | With a sound cache, a second lookup returns what the first did. The found resolver supports the parameter, and the cache stays sound. |
| ResolverComposite.SupportsParameter | spring-web/src/main/java/org/springframework/web/method/support/HandlerMethodArgumentResolverComposite.java:102-104 | On a miss, it holds exactly when some registered resolver supports the parameter. On a hit, it holds and nothing changes. |
| ResolverComposite.ResolveArgument | spring-web/src/main/java/org/springframework/web/method/support/HandlerMethodArgumentResolverComposite.java:113-123 | With no supporting resolver it is IllegalArgumentException and nothing changes. Otherwise the argument comes from the cached or first supporting resolver. |
| ResolverComposite.SupportedAfterClear | spring-web/src/main/java/org/springframework/web/method/support/HandlerMethodArgumentResolverComposite.java:93-104 | After clear, a parameter cached earlier is still reported as supported, although the list is empty. |
| RequestParamMap.ResolveArgument | spring-web/src/main/java/org/springframework/web/method/annotation/RequestParamMapMethodArgumentResolver.java:72-139 | The map kind follows the parameter: multi-value or single-value, and String, MultipartFile or Part values. File maps without a multipart request are empty, and so are Part maps of a non-multipart request. |
| RequestParamMap.GetMultiValueParameters | spring-web/src/main/java/org/springframework/web/method/annotation/RequestParamMapMethodArgumentResolver.java:98-105 | Each parameter name maps to all its values in order. A name with no values is absent. |
| RequestParamMap.GetAddValues | spring-web/src/main/java/org/springframework/web/method/annotation/RequestParamMapMethodArgumentResolver.java:100-104 | Adding a parameter's values appends them to that name's list and leaves every other name alone. |
| RequestParamMap.MultiValueParametersKeys | spring-web/src/main/java/org/springframework/web/method/annotation/RequestParamMapMethodArgumentResolver.java:98-105 | The multi-value map's keys are the request's parameter names that have values, in request order. |
| RequestParamMap.KeysAddValues | spring-web/src/main/java/org/springframework/web/method/annotation/RequestParamMapMethodArgumentResolver.java:100-104 | Adding values puts a new name at the end, and only when there is at least one value. |
| RequestParamMap.GetFirstValues | spring-web/src/main/java/org/springframework/web/method/annotation/RequestParamMapMethodArgumentResolver.java:127-136 | Each parameter name maps to its first value. A name with no values is absent. |
| RequestParamMap.FirstValuesKeys | spring-web/src/main/java/org/springframework/web/method/annotation/RequestParamMapMethodArgumentResolver.java:127-137 | The single-value map's keys are the parameter names that have values, in request order. |
| RequestParamMap.PartsNamed | spring-web/src/main/java/org/springframework/web/method/annotation/RequestParamMapMethodArgumentResolver.java:86-95 | Exactly the parts with the given name, taken from the request's parts. |
| RequestParamMap.GetPartLists | spring-web/src/main/java/org/springframework/web/method/annotation/RequestParamMapMethodArgumentResolver.java:86-95 | Each part name maps to all parts of that name, in request order. A name without parts is absent. |
| RequestParamMap.GetFirstParts | spring-web/src/main/java/org/springframework/web/method/annotation/RequestParamMapMethodArgumentResolver.java:114-125 | Each part name maps to the first part of that name. |
| RequestParamMap.FirstOfEach | spring-web/src/main/java/org/springframework/web/method/annotation/RequestParamMapMethodArgumentResolver.java:110-112 | Every key of the flattened map is a key of the multi-value map, and the flattened map has no more entries. |
| RequestParamMap.GetFirstOfEach | spring-web/src/main/java/org/springframework/web/method/annotation/RequestParamMapMethodArgumentResolver.java:110-112 | In the flattened map a key reads the first value of its list. A key whose list is empty or missing is absent. |
| RequestParamMap.ParameterMapLookup | spring-web/src/main/java/org/springframework/web/method/annotation/RequestParamMapMethodArgumentResolver.java:96-137 | For String values, a lookup in the resolved argument gives all values (multi-value) or the first value (single-value) of that request parameter. A parameter with no values is absent. |
| RequestParamMap.PartMapLookup | spring-web/src/main/java/org/springframework/web/method/annotation/RequestParamMapMethodArgumentResolver.java:85-125 | For Part values of a multipart request, a lookup gives all parts (multi-value) or the first part (single-value) of that name. |
| RequestParamMap.FileMapLookup | spring-web/src/main/java/org/springframework/web/method/annotation/RequestParamMapMethodArgumentResolver.java:80-112 | For MultipartFile values of a multipart request, a lookup gives that field's files as the request's file map holds them (multi-value), or its first file (single-value). A field with no files is absent from the single-value map. |
| MessageConverterResolver.NewResolver | spring-webmvc/src/main/java/org/springframework/web/servlet/mvc/method/annotation/AbstractMessageConverterMethodArgumentResolver.java:100-107 | An empty converter list is rejected with IllegalArgumentException. Otherwise the resolver keeps the converters and their supported media types. |
| MessageConverterResolver.AllSupportedMediaTypes | spring-webmvc/src/main/java/org/springframework/web/servlet/mvc/method/annotation/AbstractMessageConverterMethodArgumentResolver.java:114-122 | Duplicate-free, and holds exactly the media types some converter supports. |
| MessageConverterResolver.AddAllDistinct | spring-webmvc/src/main/java/org/springframework/web/servlet/mvc/method/annotation/AbstractMessageConverterMethodArgumentResolver.java:115-118 | Adding to the linked set keeps earlier types first, adds no duplicate, and holds the union. |
| MessageConverterResolver.FirstReader | spring-webmvc/src/main/java/org/springframework/web/servlet/mvc/method/annotation/AbstractMessageConverterMethodArgumentResolver.java:199-225 | Finds the first converter that can read the content type, generic or by class. None is found exactly when no converter can. |
| MessageConverterResolver.NoConverterDecision | spring-webmvc/src/main/java/org/springframework/web/servlet/mvc/method/annotation/AbstractMessageConverterMethodArgumentResolver.java:230-235 | With no converter the result is null exactly when the method is not POST, PUT or PATCH (line 73), or when there is neither a content type nor a body. Otherwise it is HttpMediaTypeNotSupportedException. |
| MessageConverterResolver.ReadDecision | spring-webmvc/src/main/java/org/springframework/web/servlet/mvc/method/annotation/AbstractMessageConverterMethodArgumentResolver.java:168-246 | An invalid Content-Type is unsupported media type, and a missing one reads as application/octet-stream. With no reader the no-converter decision applies. Otherwise only the first reader is used: with no body its empty-body result is taken; otherwise a read failure is not-readable and a read body goes through afterBodyRead. |
| MessageConverterResolver.AdaptArgumentIfNecessary | spring-webmvc/src/main/java/org/springframework/web/servlet/mvc/method/annotation/AbstractMessageConverterMethodArgumentResolver.java:310-321 | A non-Optional parameter gets the argument unchanged. An Optional one gets empty exactly for null, an empty collection or an empty array, and otherwise the argument wrapped. |
| RequestBodyProcessor.ReadBody | spring-webmvc/src/main/java/org/springframework/web/servlet/mvc/method/annotation/RequestResponseBodyMethodProcessor.java:156-175 | Read errors pass through. A null body for a required, non-optional @RequestBody is HttpMessageNotReadableException. Anything else is the read result, so null only comes back when no body is required. |
| RequestBodyProcessor.ResolveArgumentDecisions | spring-webmvc/src/main/java/org/springframework/web/servlet/mvc/method/annotation/RequestResponseBodyMethodProcessor.java:129-153 | Validation runs only with a binder factory, a non-null argument and a validation annotation. Resolution fails with MethodArgumentNotValidException exactly when validation reports errors and a bind exception is required. Otherwise the result is the Optional-adapted argument, the binding result is exposed, and the request-handled flag is kept. |
| RequestBodyProcessor.MissingRequiredBody | spring-webmvc/src/main/java/org/springframework/web/servlet/mvc/method/annotation/RequestResponseBodyMethodProcessor.java:163-175 | With no body read, resolution fails exactly when checkRequired holds, and then with not-readable. |
| RequestBodyProcessor.HandleReturnValue | spring-webmvc/src/main/java/org/springframework/web/servlet/mvc/method/annotation/RequestResponseBodyMethodProcessor.java:177-188 | The request is always marked handled, and nothing else in the container changes. |
| RootDefinition.GetParentName | spring-beans/src/main/java/org/springframework/beans/factory/support/RootBeanDefinition.java:283-285 | A root definition never has a parent. |
| RootDefinition.SetParentName | spring-beans/src/main/java/org/springframework/beans/factory/support/RootBeanDefinition.java:287-292 | Only null is accepted, and it changes nothing. A name is IllegalArgumentException. |
| RootDefinition.SetFactoryMethodName | spring-beans/src/main/java/org/springframework/beans/factory/support/RootBeanDefinition.java:403-418 | Succeeds exactly for a name with text and fails with IllegalArgumentException otherwise. On success it sets the name and the uniqueness flag and touches no other field. |
| RootDefinition.SetUniqueFactoryMethodName | spring-beans/src/main/java/org/springframework/beans/factory/support/RootBeanDefinition.java:403-407 | Rejects an empty name; otherwise sets the name and marks it unique. |
| RootDefinition.SetNonUniqueFactoryMethodName | spring-beans/src/main/java/org/springframework/beans/factory/support/RootBeanDefinition.java:414-418 | Rejects an empty name; otherwise sets the name and marks it non-unique. |
| RootDefinition.FactoryMethodAfterSet | spring-beans/src/main/java/org/springframework/beans/factory/support/RootBeanDefinition.java:403-425 | After a successful setter, isFactoryMethod holds exactly for methods of that name, and uniqueness is what the chosen setter says. |
| RootDefinition.SetTargetTypeClass | spring-beans/src/main/java/org/springframework/beans/factory/support/RootBeanDefinition.java:344-346 | A class is stored as its resolvable type, and null clears the target type. No other field changes. |
| RootDefinition.TargetTypeRoundTrip | spring-beans/src/main/java/org/springframework/beans/factory/support/RootBeanDefinition.java:344-360 | getTargetType returns what setTargetType stored, or null after null, unless a resolved target type is cached, which always wins. |
| RootDefinition.ResolvableTypePrecedence | spring-beans/src/main/java/org/springframework/beans/factory/support/RootBeanDefinition.java:371-387 | getResolvableType consults the target type, then the factory method return type, then the introspected method's return type, then the bean class. An earlier source hides every later one whatever the later ones hold. |
| RootDefinition.AddToLazySet | spring-beans/src/main/java/org/springframework/beans/factory/support/RootBeanDefinition.java:447-453 | A lazily created set gains the member: created with just it, or extended by it. |
| RootDefinition.ExternallyManagedMembers | spring-beans/src/main/java/org/springframework/beans/factory/support/RootBeanDefinition.java:447-493 | For config members, init methods and destroy methods, a registered member is reported and a fresh definition reports none. Registering one member changes no answer for other members or for the other two sets. |
| RootDefinition.Copy | spring-beans/src/main/java/org/springframework/beans/factory/support/RootBeanDefinition.java:262-270 | The copy constructor keeps the base definition, decorated definition, qualified element, allowCaching, uniqueness flag, target type and introspected factory method. Every cached or registered field starts empty. |
| RootDefinition.CopyAnswers | spring-beans/src/main/java/org/springframework/beans/factory/support/RootBeanDefinition.java:262-270 | A copy reports the declared target type, resolves the same type when the original had no cached return type, and has no parent. |
| UrlHandlerMapping.ResolveForRegistration | spring-webmvc/src/main/java/org/springframework/web/servlet/handler/AbstractUrlHandlerMapping.java:437-446 | A handler name becomes the bean exactly when handlers are not lazy and the name is a singleton. An exception from the singleton test or from getBean is propagated unchanged. |
| UrlHandlerMapping.RegisterHandler | spring-webmvc/src/main/java/org/springframework/web/servlet/handler/AbstractUrlHandlerMapping.java:434-483 | A handler that cannot be resolved fails with the context's exception. Otherwise, mapping a path to a different handler is IllegalStateException, and the same handler is a no-op. "/" sets the root handler and "/*" the default handler. These are the only errors. A well-formed mapping stays well-formed. |
| UrlHandlerMapping.RegisterHandlerEffect | spring-webmvc/src/main/java/org/springframework/web/servlet/handler/AbstractUrlHandlerMapping.java:448-477 | After a successful registration, an ordinary path maps to the resolved handler, "/" sets the root handler and "/*" the default handler. Nothing else changes. |
| UrlHandlerMapping.RegisterOrdinaryPath | spring-webmvc/src/main/java/org/springframework/web/servlet/handler/AbstractUrlHandlerMapping.java:437-477 | A new ordinary path is mapped to the resolved handler. Every other path and the root and default handlers are unchanged. If the handler cannot be resolved, the context's exception is raised. |
| UrlHandlerMapping.RootRegistrationReplaces | spring-webmvc/src/main/java/org/springframework/web/servlet/handler/AbstractUrlHandlerMapping.java:448-464 | "/" never enters the handler map, so registering it again replaces the root handler without a conflict. |
| UrlHandlerMapping.RegisterHandlers | spring-webmvc/src/main/java/org/springframework/web/servlet/handler/AbstractUrlHandlerMapping.java:418-423 | Registering several paths keeps the mapping well-formed. It fails only with IllegalStateException or with the exception from resolving the bean name. |
| UrlHandlerMapping.RegisterHandlersRegisters | spring-webmvc/src/main/java/org/springframework/web/servlet/handler/AbstractUrlHandlerMapping.java:418-423 | When every path registers, each ordinary path maps to the resolved bean, "/" sets the root handler, "/*" sets the default handler, and unlisted paths keep their handlers. |
| UrlHandlerMapping.RegisterHandlersStopsAtFailure | spring-webmvc/src/main/java/org/springframework/web/servlet/handler/AbstractUrlHandlerMapping.java:420-422 | A failure stops the loop at one path. The paths before it are registered and kept, and registering that path raised the reported exception. |
| UrlHandlerMapping.Obtain | spring-webmvc/src/main/java/org/springframework/web/servlet/handler/AbstractUrlHandlerMapping.java:288-291 | A handler name is looked up as a bean, and a getBean exception is propagated. A bean handler is kept. |
| UrlHandlerMapping.GetDirectMatch | spring-webmvc/src/main/java/org/springframework/web/servlet/handler/AbstractUrlHandlerMapping.java:317-333 | A path that is not a key gives no direct match. A key gives its handler, with the path as pattern and no variables, or the exception from getBean. |
| UrlHandlerMapping.MatchOf | spring-webmvc/src/main/java/org/springframework/web/servlet/handler/AbstractUrlHandlerMapping.java:250-259 | A match is the registered pattern itself, or that pattern plus "/" when it does not already end in "/". |
| UrlHandlerMapping.MatchingPatterns | spring-webmvc/src/main/java/org/springframework/web/servlet/handler/AbstractUrlHandlerMapping.java:248-260 | Holds exactly the matches of the registered patterns. |
| UrlHandlerMapping.MergeVariablesIsPutAll | spring-webmvc/src/main/java/org/springframework/web/servlet/handler/AbstractUrlHandlerMapping.java:297-305 | Merging is one putAll of the variables of the equally ranked patterns, in order, so a later definition overrides an earlier one. |
| UrlHandlerMapping.MergeVariablesDefines | spring-webmvc/src/main/java/org/springframework/web/servlet/handler/AbstractUrlHandlerMapping.java:297-305 | A variable is defined exactly when it was already defined, or some pattern that compares equal to the best one defines it. |
| UrlHandlerMapping.DirectMatchFirst | spring-webmvc/src/main/java/org/springframework/web/servlet/handler/AbstractUrlHandlerMapping.java:242-245 | An exact key is answered before any pattern matching, including a failure to obtain its handler bean. |
| UrlHandlerMapping.NoMatchNoHandler | spring-webmvc/src/main/java/org/springframework/web/servlet/handler/AbstractUrlHandlerMapping.java:262-313 | With no exact key and no matching pattern, lookup returns null. |
| UrlHandlerMapping.PatternLookup | spring-webmvc/src/main/java/org/springframework/web/servlet/handler/AbstractUrlHandlerMapping.java:240-314 | With matches, the best pattern is the first minimal one under the comparator. Its handler is the registered one, or the registered one without the trailing slash. Lookup fails only if that handler bean cannot be obtained, never with IllegalStateException. A URI variable is defined exactly when a pattern equal to the best one defines it. With no matches the result is null. |
| UrlHandlerMapping.PatternVariableValue | spring-webmvc/src/main/java/org/springframework/web/servlet/handler/AbstractUrlHandlerMapping.java:297-305 | After a successful lookup, a URI variable's value is the one given by the last pattern, in sorted order, that ranks equal to the best match and defines it. A variable that no such pattern defines is absent. |
| UrlHandlerMapping.BestIsRegistered | spring-webmvc/src/main/java/org/springframework/web/servlet/handler/AbstractUrlHandlerMapping.java:275-286 | A best match that is not a key ends in "/", and without it is a key, so the IllegalStateException branch is unreachable. |
| UrlHandlerMapping.MergedVariables | spring-webmvc/src/main/java/org/springframework/web/servlet/handler/AbstractUrlHandlerMapping.java:297-305 | The merged variables are those of the patterns that compare equal to the best one, whatever order the sort left them in. |
| UrlHandlerMapping.GetHandlerInternal | spring-webmvc/src/main/java/org/springframework/web/servlet/handler/AbstractUrlHandlerMapping.java:138-175 | A found handler or an error is returned as is. Otherwise "/" falls back to the root handler, and any other path, or "/" without a root handler, to the default handler. With neither, the result is null. A fallback handler name whose bean cannot be obtained gives getBean's exception. |
| UrlHandlerMapping.MatchAgreesWithLookup | spring-webmvc/src/main/java/org/springframework/web/servlet/handler/AbstractUrlHandlerMapping.java:397-408 | `match` applies the same trailing-slash rule as lookup. |
| OrderSort.SortByRank | spring-context/src/main/java/org/springframework/context/support/PostProcessorRegistrationDelegate.java:273-286 | The result is sorted, a permutation of the input, and a list of at most one element is untouched. |
| OrderSort.Insert | spring-context/src/main/java/org/springframework/context/support/PostProcessorRegistrationDelegate.java:285 | Inserting into a sorted list keeps it sorted, places the element before equal ranks, and grows the list by one. |
| OrderSort.InsertPermutes | spring-context/src/main/java/org/springframework/context/support/PostProcessorRegistrationDelegate.java:285 | Insertion adds exactly the element to the multiset. |
| OrderSort.FirstMinimal | spring-webmvc/src/main/java/org/springframework/web/servlet/handler/AbstractUrlHandlerMapping.java:267-272 | The chosen pattern is an element of least rank, and every element before it ranks strictly higher. |
| OrderSort.SortHeadIsFirstMinimal | spring-webmvc/src/main/java/org/springframework/web/servlet/handler/AbstractUrlHandlerMapping.java:267-272 | The head of the stable sort is the first minimal element, which is what `get(0)` after sorting picks. |
| OrderSort.SortKeepsElements | spring-webmvc/src/main/java/org/springframework/web/servlet/handler/AbstractUrlHandlerMapping.java:267 | Sorting neither loses nor invents elements. |
| LinkedMaps.Get | spring-webmvc/src/main/java/org/springframework/web/servlet/handler/AbstractUrlHandlerMapping.java:449 | A key has a value exactly when it is a key of the map. |
| LinkedMaps.Put | spring-webmvc/src/main/java/org/springframework/web/servlet/handler/AbstractUrlHandlerMapping.java:474 | An existing key keeps its position, and a new key goes to the end. |
| LinkedMaps.GetPut | spring-webmvc/src/main/java/org/springframework/web/servlet/handler/AbstractUrlHandlerMapping.java:474 | After a put, the key holds the new value and every other key is unchanged. |
| LinkedMaps.PutKeepsDistinct | spring-webmvc/src/main/java/org/springframework/web/servlet/handler/AbstractUrlHandlerMapping.java:474 | A put never introduces a duplicate key. |
| LinkedMaps.GetPutAll | spring-webmvc/src/main/java/org/springframework/web/servlet/handler/AbstractUrlHandlerMapping.java:303 | After a series of puts, a key holds the value of its last put, and an untouched key keeps its value. |
| LinkedMaps.PutAllAppend | spring-webmvc/src/main/java/org/springframework/web/servlet/handler/AbstractUrlHandlerMapping.java:297-305 | Two putAll calls in a row equal one putAll of both entry lists in order. |
| LinkedMaps.GetAdd | spring-web/src/main/java/org/springframework/web/method/annotation/RequestParamMapMethodArgumentResolver.java:100-104 | A multi-value add appends to that key's list and leaves the other keys alone. |
| PostProcessorDelegate.ComparatorToUse | spring-context/src/main/java/org/springframework/context/support/PostProcessorRegistrationDelegate.java:278-284 | The factory's dependency comparator if it has one, otherwise the OrderComparator. |
| PostProcessorDelegate.OrderRankCompares | spring-context/src/main/java/org/springframework/context/support/PostProcessorRegistrationDelegate.java:283 | Comparing OrderComparator ranks puts a PriorityOrdered object before any other whatever the order values; otherwise the objects compare by order value, a non-Ordered object counting as LOWEST_PRECEDENCE. Ranks are equal exactly when both points agree. |
| PostProcessorDelegate.SortPostProcessors | spring-context/src/main/java/org/springframework/context/support/PostProcessorRegistrationDelegate.java:273-286 | Lists of at most one element are untouched. Otherwise the result is a permutation sorted by the comparator to use. |
| PostProcessorDelegate.SortNames | spring-context/src/main/java/org/springframework/context/support/PostProcessorRegistrationDelegate.java:107 | Sorted by the comparator in use, with the same names and no duplicate added. |
| PostProcessorDelegate.SortNamesByOrderComparator | spring-context/src/main/java/org/springframework/context/support/PostProcessorRegistrationDelegate.java:273-285 | Without a dependency comparator, no PriorityOrdered post-processor is preceded by one that is not, and post-processors alike in that respect come by ascending effective order. |
| PostProcessorDelegate.Pick | spring-context/src/main/java/org/springframework/context/support/PostProcessorRegistrationDelegate.java:99-106 | A discovery pass finds exactly the names that are unprocessed, of the right processor type, and match the stage's Ordered/PriorityOrdered selector. |
| PostProcessorDelegate.AddDefinitions | spring-context/src/main/java/org/springframework/context/support/PostProcessorRegistrationDelegate.java:291-300 | Definitions registered by a callback extend the bean names without duplicates. Only names with definitions are added. |
| PostProcessorDelegate.RunRegistryCallbacks | spring-context/src/main/java/org/springframework/context/support/PostProcessorRegistrationDelegate.java:291-300 | Running registry callbacks only adds names, all of them defined, and adds no duplicate. |
| PostProcessorDelegate.SuppliedStage | spring-context/src/main/java/org/springframework/context/support/PostProcessorRegistrationDelegate.java:75-84 | Supplied registry processors get their registry callback at once, in supplied order. The other supplied processors are only collected, and nothing is marked processed. |
| PostProcessorDelegate.RegistryStage | spring-context/src/main/java/org/springframework/context/support/PostProcessorRegistrationDelegate.java:99-110 | A stage marks exactly the picked names as processed and appends their sorted references to the registry processors. Their callbacks are appended to the trace in that order. |
| PostProcessorDelegate.StageProgress | spring-context/src/main/java/org/springframework/context/support/PostProcessorRegistrationDelegate.java:128-143 | A pass that finds a name strictly shrinks the set of unprocessed definitions. |
| PostProcessorDelegate.Reiterate | spring-context/src/main/java/org/springframework/context/support/PostProcessorRegistrationDelegate.java:128-143 | The re-discovery loop terminates, and it stops after a pass that finds no unprocessed registry processor. |
| PostProcessorDelegate.ReiterateExtends | spring-context/src/main/java/org/springframework/context/support/PostProcessorRegistrationDelegate.java:128-143 | The loop only extends the trace and the registry processor list, and leaves the regular processors alone. |
| PostProcessorDelegate.ReiterateKeepsAccounted | spring-context/src/main/java/org/springframework/context/support/PostProcessorRegistrationDelegate.java:128-143 | The processed names remain exactly the bean-discovered registry processors, each once. |
| PostProcessorDelegate.ReiterateKeepsTrace | spring-context/src/main/java/org/springframework/context/support/PostProcessorRegistrationDelegate.java:128-143 | The trace remains the registry callbacks of the accumulated processors, in accumulation order. |
| PostProcessorDelegate.ReiterateKeepsPhases | spring-context/src/main/java/org/springframework/context/support/PostProcessorRegistrationDelegate.java:128-143 | Every callback of the loop happens in a phase its processor's ordering allows. |
| PostProcessorDelegate.RegistryPart | spring-context/src/main/java/org/springframework/context/support/PostProcessorRegistrationDelegate.java:70-143 | After the registry part no unprocessed registry processor is left. |
| PostProcessorDelegate.SuppliedRegistryProcessorsFirst | spring-context/src/main/java/org/springframework/context/support/PostProcessorRegistrationDelegate.java:75-84 | The supplied registry processors' callbacks open the trace, in supplied order. |
| PostProcessorDelegate.RegistryCallbacksOnce | spring-context/src/main/java/org/springframework/context/support/PostProcessorRegistrationDelegate.java:99-143 | Every registry callback target is called once, and bean-discovered targets are exactly the processed names. A factory that is not a registry makes no registry callback. |
| PostProcessorDelegate.EveryRegistryProcessorCalled | spring-context/src/main/java/org/springframework/context/support/PostProcessorRegistrationDelegate.java:128-143 | Every registry processor bean known at the end gets its registry callback. |
| PostProcessorDelegate.RegistryStagesInOrder | spring-context/src/main/java/org/springframework/context/support/PostProcessorRegistrationDelegate.java:99-143 | Registry callbacks run PriorityOrdered before Ordered before the rest, sorted within each stage. Each callback falls in a phase its ordering allows. |
| PostProcessorDelegate.OutcomeTargets | spring-context/src/main/java/org/springframework/context/support/PostProcessorRegistrationDelegate.java:58-197 | Factory callbacks go to the accumulated registry processors in accumulation order, then to the regular supplied ones, then to the factory stage (lines 146-147). Without a registry, all supplied processors come first. |
| PostProcessorDelegate.MetadataClearedLast | spring-context/src/main/java/org/springframework/context/support/PostProcessorRegistrationDelegate.java:195-196 | In a run without exceptions, the merged-definition cache is cleared once, as the last event. |
| PostProcessorDelegate.InvokeBeanFactoryPostProcessors | spring-context/src/main/java/org/springframework/context/support/PostProcessorRegistrationDelegate.java:58-197 | The run ends by clearing the merged-definition cache. For a factory that is not a definition registry, no registry callback is made. |
| PostProcessorDelegate.CutAtFailure | spring-context/src/main/java/org/springframework/context/support/PostProcessorRegistrationDelegate.java:291-315 | A run stopped by an exception consists of the calls up to and including the first one that throws, each earlier call returning normally. Without an exception, every call is made. |
| PostProcessorDelegate.InvokeWithCallbackFailures | spring-context/src/main/java/org/springframework/context/support/PostProcessorRegistrationDelegate.java:58-197 | When a postProcessBeanDefinitionRegistry or postProcessBeanFactory callback throws, the calls made are those of the exception-free run up to and including that callback, and its exception propagates. With no throwing callback the run is the exception-free one. |
| PostProcessorDelegate.FailureSkipsClear | spring-context/src/main/java/org/springframework/context/support/PostProcessorRegistrationDelegate.java:58-197 | A run that fails ends with the callback that threw and never clears the merged-definition cache. A run without exceptions clears it last. |
| PostProcessorDelegate.FactoryGroups | spring-context/src/main/java/org/springframework/context/support/PostProcessorRegistrationDelegate.java:159-176 | The factory stage is the PriorityOrdered group, sorted, then the Ordered group, sorted, then the rest in name order. Processed names are skipped. |
| PostProcessorDelegate.FactoryStageMembers | spring-context/src/main/java/org/springframework/context/support/PostProcessorRegistrationDelegate.java:159-193 | The factory stage runs exactly the unprocessed factory processors, each once. |
| PostProcessorDelegate.FactoryStageOrder | spring-context/src/main/java/org/springframework/context/support/PostProcessorRegistrationDelegate.java:178-193 | The factory stage runs priority, then ordered, then non-ordered processors. |
| PostProcessorDelegate.FactoryCallbacksOnce | spring-context/src/main/java/org/springframework/context/support/PostProcessorRegistrationDelegate.java:146-193 | Every factory callback target is called once, and every supplied processor among them. Bean-discovered targets are exactly the final bean names. |
| BeanPostProcessorRegistration.OfKind | spring-context/src/main/java/org/springframework/context/support/PostProcessorRegistrationDelegate.java:223-235 | A group holds exactly the names of its ordering kind, without duplicates. |
| BeanPostProcessorRegistration.Merged | spring-context/src/main/java/org/springframework/context/support/PostProcessorRegistrationDelegate.java:227-260 | The internal group holds exactly the merged-definition processors, without duplicates. |
| BeanPostProcessorRegistration.SortBeans | spring-context/src/main/java/org/springframework/context/support/PostProcessorRegistrationDelegate.java:238 | Sorted by the comparator in use, with the same names and no duplicate added. |
| BeanPostProcessorRegistration.SortBeansByOrderComparator | spring-context/src/main/java/org/springframework/context/support/PostProcessorRegistrationDelegate.java:265 | Without a dependency comparator, no PriorityOrdered bean is preceded by one that is not (this matters for the mixed internal group), and beans alike in that respect come by ascending effective order. |
| BeanPostProcessorRegistration.GroupFacts | spring-context/src/main/java/org/springframework/context/support/PostProcessorRegistrationDelegate.java:219-266 | The priority, ordered and plain groups partition the names. The internal group is exactly the merged-definition processors. |
| BeanPostProcessorRegistration.GroupsCover | spring-context/src/main/java/org/springframework/context/support/PostProcessorRegistrationDelegate.java:223-235 | Every name lands in exactly one of the three groups. |
| BeanPostProcessorRegistration.RegisterShape | spring-context/src/main/java/org/springframework/context/support/PostProcessorRegistrationDelegate.java:205-271 | The checker's target count is the existing count + 1 + the number of names. The list comes out as the existing processors other than those registered again, then the checker, then the priority, ordered and plain groups without the internal ones, then the internal ones, then the listener detector. |
| BeanPostProcessorRegistration.RegisterBeanPostProcessors | spring-context/src/main/java/org/springframework/context/support/PostProcessorRegistrationDelegate.java:205-271 | The checker's target count is the existing count + 1 + the number of post-processor names. The ApplicationListenerDetector ends the list. |
| BeanPostProcessorRegistration.RegisterMembers | spring-context/src/main/java/org/springframework/context/support/PostProcessorRegistrationDelegate.java:205-271 | Every named and every existing bean processor is registered. The listener detector is last and only there, and no duplicate arises. |
| BeanPostProcessorRegistration.ChainShape | spring-context/src/main/java/org/springframework/context/support/PostProcessorRegistrationDelegate.java:213-270 | The add calls with remove-then-append give the layout above for any groups. |
| BeanPostProcessorRegistration.AddEachIsAddAll | spring-context/src/main/java/org/springframework/context/support/PostProcessorRegistrationDelegate.java:320-332 | Adding processors one at a time equals adding them all at once. |
| BeanPostProcessorRegistration.AddOneLast | spring-context/src/main/java/org/springframework/context/support/PostProcessorRegistrationDelegate.java:320-332 | An added processor ends up last and only there. |
| BeanPostProcessorRegistration.AddAllLast | spring-context/src/main/java/org/springframework/context/support/PostProcessorRegistrationDelegate.java:320-332 | Added processors end up as the tail, in order. |
| BeanPostProcessorRegistration.CheckerAfterInitialization | spring-context/src/main/java/org/springframework/context/support/PostProcessorRegistrationDelegate.java:359-372 | The checker returns the bean unchanged. It reports a bean exactly when three things hold: the bean is not a post-processor, the bean is not a defined bean with the infrastructure role, and fewer processors than the target are registered. |
| BeanPostProcessorRegistration.CheckerSilentAfterRegistration | spring-context/src/main/java/org/springframework/context/support/PostProcessorRegistrationDelegate.java:213-215 | After registration the count reaches the checker's target, so the checker reports nothing. |
| FactoryBeanCache.CachedObject | spring-beans/src/main/java/org/springframework/beans/factory/support/FactoryBeanRegistrySupport.java:85-87 | Returns the cached object exactly when there is one. |
| FactoryBeanCache.GetObjectFromFactoryBean | spring-beans/src/main/java/org/springframework/beans/factory/support/FactoryBeanRegistrySupport.java:99-148 | getObject is skipped exactly on a singleton-path cache hit, which answers from the cache and changes nothing. Otherwise the registry is as getObject left it, except for at most a new cache entry for this singleton. Off the singleton path the cache is never written, and a failing getObject fails the call. |
| FactoryBeanCache.AlreadyThereWins | spring-beans/src/main/java/org/springframework/beans/factory/support/FactoryBeanRegistrySupport.java:110-112 | An entry that appeared during getObject wins over the fresh object. |
| FactoryBeanCache.InCreationReturnsUnprocessed | spring-beans/src/main/java/org/springframework/beans/factory/support/FactoryBeanRegistrySupport.java:114-118 | With post-processing requested and the name in creation, the unprocessed object is returned and nothing is cached. |
| FactoryBeanCache.FreshObjectStored | spring-beans/src/main/java/org/springframework/beans/factory/support/FactoryBeanRegistrySupport.java:119-131 | The fresh object is post-processed if requested. It is cached exactly when that succeeds and the name is still a singleton, and the in-creation set is restored. |
| FactoryBeanCache.SecondCallHitsCache | spring-beans/src/main/java/org/springframework/beans/factory/support/FactoryBeanRegistrySupport.java:101-104 | Once cached, a second call answers from the cache without calling getObject. |
| FactoryBeanCache.GetObjectKeepsCacheWithinSingletons | spring-beans/src/main/java/org/springframework/beans/factory/support/FactoryBeanRegistrySupport.java:99-148 | Only registered singletons have cache entries, and getObjectFromFactoryBean keeps it so. |
| FactoryBeanCache.DoGetObject | spring-beans/src/main/java/org/springframework/beans/factory/support/FactoryBeanRegistrySupport.java:159-189 | Not-initialized, or null while the bean is in creation, is BeanCurrentlyInCreationException. Any other throwable is BeanCreationException. Otherwise the result is the object, with null replaced by NullBean. |
| FactoryBeanCache.BeforeSingletonCreation | spring-beans/src/main/java/org/springframework/beans/factory/support/FactoryBeanRegistrySupport.java:119-121 | Fails exactly for a non-excluded name already in creation. Otherwise it adds the name (unless excluded) and nothing else changes. |
| FactoryBeanCache.AfterSingletonCreation | spring-beans/src/main/java/org/springframework/beans/factory/support/FactoryBeanRegistrySupport.java:126-128 | Fails exactly for a non-excluded name not in creation. Otherwise it removes the name (unless excluded) and nothing else changes. |
| FactoryBeanCache.BracketRestores | spring-beans/src/main/java/org/springframework/beans/factory/support/FactoryBeanRegistrySupport.java:119-128 | Before and then after singleton creation restores the registry exactly. |
| FactoryBeanCache.PostProcess | spring-beans/src/main/java/org/springframework/beans/factory/support/FactoryBeanRegistrySupport.java:122-125 | A post-processing failure is wrapped as BeanCreationException for the bean; a success is the post-processor's object. |
| FactoryBeanCache.BracketedPostProcess | spring-beans/src/main/java/org/springframework/beans/factory/support/FactoryBeanRegistrySupport.java:119-128 | For a name not in creation, the in-creation set is restored whatever post-processing did, and the result is the post-processing result. |
| FactoryBeanCache.GetFactoryBean | spring-beans/src/main/java/org/springframework/beans/factory/support/FactoryBeanRegistrySupport.java:214-220 | Accepts exactly FactoryBean instances and rejects others with BeanCreationException. |
| FactoryBeanCache.RemoveSingleton | spring-beans/src/main/java/org/springframework/beans/factory/support/FactoryBeanRegistrySupport.java:226-231 | The name leaves the singletons and the cache, and every other entry is unchanged. |
| FactoryBeanCache.ClearSingletonCache | spring-beans/src/main/java/org/springframework/beans/factory/support/FactoryBeanRegistrySupport.java:237-242 | Singletons and cache are emptied together, and creation state is kept. |
| FactoryBeanCache.EvictionKeepsCacheWithinSingletons | spring-beans/src/main/java/org/springframework/beans/factory/support/FactoryBeanRegistrySupport.java:226-242 | Both evictions keep the cache within the singletons. |
| FactoryBeanCache.RemovedSingletonIsRecomputed | spring-beans/src/main/java/org/springframework/beans/factory/support/FactoryBeanRegistrySupport.java:226-231 | After removal, the next request calls getObject again. |
| ValueResolver.Record | spring-beans/src/main/java/org/springframework/beans/factory/support/BeanDefinitionValueResolver.java:349 | An event is appended to the log. A dependent or contained edge puts its bean name in use. |
| ValueResolver.ExposeNull | spring-beans/src/main/java/org/springframework/beans/factory/support/BeanDefinitionValueResolver.java:351-353 | A NullBean is exposed as null; everything else is unchanged. |
| ValueResolver.EvaluateObject | spring-beans/src/main/java/org/springframework/beans/factory/support/BeanDefinitionValueResolver.java:263-282 | A String is evaluated. A String[] comes back as the original array exactly when every element evaluates to itself; otherwise it becomes an Object[] of the element results. Anything else is returned as is. |
| ValueResolver.ResolveTyped | spring-beans/src/main/java/org/springframework/beans/factory/support/BeanDefinitionValueResolver.java:217-233 | Without a target type the value is the evaluated text. With a target class, or a class name that loads, the result succeeds exactly when converting the evaluated text to that class succeeds, and it is the converted value. A class that cannot be loaded, or a failed conversion, is a creation error. |
| ValueResolver.ArrayElementType | spring-beans/src/main/java/org/springframework/beans/factory/support/BeanDefinitionValueResolver.java:157-176 | The resolved element type wins, then the loaded type name. A failing class load is a creation error, and with no type name the type is Object. |
| ValueResolver.Decimal | spring-beans/src/main/java/org/springframework/beans/factory/support/BeanDefinitionValueResolver.java:433 | A counter prints to at least one digit, and to at least two from 10 on. |
| ValueResolver.DecimalInjective | spring-beans/src/main/java/org/springframework/beans/factory/support/BeanDefinitionValueResolver.java:433 | Different counters print differently. |
| ValueResolver.SuffixedInjective | spring-beans/src/main/java/org/springframework/beans/factory/support/BeanDefinitionValueResolver.java:433 | Different counters give different candidate names. |
| ValueResolver.CandidatesCount | spring-beans/src/main/java/org/springframework/beans/factory/support/BeanDefinitionValueResolver.java:428-434 | The first k candidate names are k distinct names. |
| ValueResolver.CandidatesBound | spring-beans/src/main/java/org/springframework/beans/factory/support/BeanDefinitionValueResolver.java:431-434 | No more candidates can be in use than names in use, which bounds the renaming loop. |
| ValueResolver.FirstFree | spring-beans/src/main/java/org/springframework/beans/factory/support/BeanDefinitionValueResolver.java:431-434 | The least counter from k on whose candidate is free. All candidates before it are in use. |
| ValueResolver.AdaptedName | spring-beans/src/main/java/org/springframework/beans/factory/support/BeanDefinitionValueResolver.java:426-436 | The result is never in use. It is the original name when that is free; otherwise it is name#k for the least k >= 1 that is free. |
| ValueResolver.AdaptInnerBeanName | spring-beans/src/main/java/org/springframework/beans/factory/support/BeanDefinitionValueResolver.java:426-436 | The counter loop returns a name not in use, namely the least free candidate. |
| ValueResolver.ResolveReference | spring-beans/src/main/java/org/springframework/beans/factory/support/BeanDefinitionValueResolver.java:315-360 | A parent reference without a parent factory is a creation error and changes nothing. Every failure is wrapped as a creation error, a NullBean is never returned, and state only grows. |
| ValueResolver.LocalReferenceRegistersDependent | spring-beans/src/main/java/org/springframework/beans/factory/support/BeanDefinitionValueResolver.java:338-353 | A local reference by name logs getBean of the resolved name and, on success, the dependent edge from that name to the current bean. |
| ValueResolver.DependsOn | spring-beans/src/main/java/org/springframework/beans/factory/support/BeanDefinitionValueResolver.java:387-393 | The depends-on loop succeeds exactly when every getBean does. Each name gets its dependent edge, then its getBean, in order. |
| ValueResolver.ResolveInnerBean | spring-beans/src/main/java/org/springframework/beans/factory/support/BeanDefinitionValueResolver.java:371-417 | Every failure is a creation error, a NullBean is never returned, and state only grows. |
| ValueResolver.InnerBeanOrder | spring-beans/src/main/java/org/springframework/beans/factory/support/BeanDefinitionValueResolver.java:380-398 | Only singletons are renamed, to a name not in use, and the name is in use afterwards. The containment edge, then every depends-on edge with its getBean, come before createBean. |
| ValueResolver.InnerNamesDistinct | spring-beans/src/main/java/org/springframework/beans/factory/support/BeanDefinitionValueResolver.java:380-385 | Two singleton inner beans of one name, resolved in turn, get different actual names. |
| ValueResolver.RegisterAutowired | spring-beans/src/main/java/org/springframework/beans/factory/support/BeanDefinitionValueResolver.java:148-154 | The new events are exactly the dependent edges of autowired names the factory contains. |
| ValueResolver.SetAddAll | spring-beans/src/main/java/org/springframework/beans/factory/support/BeanDefinitionValueResolver.java:468-478 | Adding to a linked set holds exactly the union, without duplicates. |
| ValueResolver.SetAddAllDistinct | spring-beans/src/main/java/org/springframework/beans/factory/support/BeanDefinitionValueResolver.java:468-478 | Distinct new elements are appended in order. |
| ValueResolver.ResolveProperties | spring-beans/src/main/java/org/springframework/beans/factory/support/BeanDefinitionValueResolver.java:196-216 | Fails, with a creation error, exactly when some evaluated key or value is null. Otherwise the table is the pairs put in order. |
| ValueResolver.PropPairs | spring-beans/src/main/java/org/springframework/beans/factory/support/BeanDefinitionValueResolver.java:198-209 | Each pair is its evaluated key and value, position by position. |
| ValueResolver.Resolve | spring-beans/src/main/java/org/springframework/beans/factory/support/BeanDefinitionValueResolver.java:110-239 | Resolution of any value kind only adds names in use and events. |
| ValueResolver.ResolveBeanName | spring-beans/src/main/java/org/springframework/beans/factory/support/BeanDefinitionValueResolver.java:118-128 | Succeeds exactly when the factory contains the evaluated name, and then returns that name. Otherwise it is a definition store error. |
| ValueResolver.ResolveSeq | spring-beans/src/main/java/org/springframework/beans/factory/support/BeanDefinitionValueResolver.java:441-463 | Resolving the elements keeps the length and only grows the state. |
| ValueResolver.ResolveEntries | spring-beans/src/main/java/org/springframework/beans/factory/support/BeanDefinitionValueResolver.java:483-493 | Resolving map entries keeps their number and only grows the state. |
| ValueResolver.ResolveSeqAllOk | spring-beans/src/main/java/org/springframework/beans/factory/support/BeanDefinitionValueResolver.java:441-463 | If every element resolves in the state its predecessors left, the sequence resolves. |
| ValueResolver.ResolveSeqValues | spring-beans/src/main/java/org/springframework/beans/factory/support/BeanDefinitionValueResolver.java:441-463 | If the sequence resolves, the k-th result is the k-th value resolved in the state its predecessors left. |
| ValueResolver.ManagedListElementwise | spring-beans/src/main/java/org/springframework/beans/factory/support/BeanDefinitionValueResolver.java:184-186 | A managed list resolves exactly when each element does. It then has the same length, and its i-th element is the resolution of the i-th value. |
| ValueResolver.ManagedSetElements | spring-beans/src/main/java/org/springframework/beans/factory/support/BeanDefinitionValueResolver.java:188-190 | A managed set holds exactly the resolved elements, each once, in iteration order. |
| ValueResolver.ManagedMapEntries | spring-beans/src/main/java/org/springframework/beans/factory/support/BeanDefinitionValueResolver.java:192-194 | A managed map has distinct keys. Each resolved key maps to the value of its last entry, in insertion order. |
| ValueResolver.ManagedArrayElements | spring-beans/src/main/java/org/springframework/beans/factory/support/BeanDefinitionValueResolver.java:157-182 | A managed array has the determined element type, Object by default. It has the same length as the input, and its i-th element is the resolution of the i-th value, which the element type accepts. When every element resolves, the array resolves exactly when the element type accepts every value, and otherwise fails with IllegalArgumentException. |
| ValueResolver.ResolveArray | spring-beans/src/main/java/org/springframework/beans/factory/support/BeanDefinitionValueResolver.java:441-450 | Resolving and storing the elements keeps the length on success and only grows the state. |
| ValueResolver.ResolveArrayIsSeq | spring-beans/src/main/java/org/springframework/beans/factory/support/BeanDefinitionValueResolver.java:441-450 | Storing into the array succeeds exactly when the element list resolves and every value is storable, and then gives the same values and state. If every element resolves but one is not storable, `Array.set` fails with IllegalArgumentException. |
| ValueResolver.NullAndAutowired | spring-beans/src/main/java/org/springframework/beans/factory/support/BeanDefinitionValueResolver.java:143-155 | A NullBean value resolves to null and changes nothing. A dependency resolves to the found object and adds dependent edges only for the autowired beans the factory contains. |

## Left out

- PostProcessorDelegate.InvokeBeanFactoryPostProcessors: exceptions from `getBean` (PostProcessorRegistrationDelegate.java lines 103, 117, 134, 170, 184 and 191) are not modelled. Java fetches every processor of a stage before calling any of them, so such a failure does not fall at a callback of the trace. Exceptions thrown by the callbacks themselves are modelled by `InvokeWithCallbackFailures`.
- BeanPostProcessorRegistration.RegisterBeanPostProcessors: exceptions from `getBean` (PostProcessorRegistrationDelegate.java lines 225, 244 and 256) are not modelled. The result is the list after a registration that completes.
- AdvisorRetrieval.Collect: the in-creation set is taken as constant during the scan. Java asks `isCurrentlyInCreation` again for each name, after earlier `getBean` calls may have changed it.
- Logging is not modelled, except as the info flag of `AutoProxyRegistrar`.
- `synchronized` blocks and concurrent maps are not modelled; every operation is sequential.
- Security-manager `AccessController` paths are not modelled.
- `StartupStep` metrics are not modelled.
- Java object identity (`==`, `!=`) is modelled as value equality, for example the `mappedHandler != resolvedHandler` conflict check.
- `AbstractBeanFactory` is not part of this model.
  - `addBeanPostProcessor(s)` is taken as remove-then-append.
  - `getBeanPostProcessorCount` is taken as the list length.
- `DefaultSingletonBeanRegistry` is not part of this model.
  - The before/after singleton creation checks are written out over the in-creation and exclusions sets.
  - The singleton tiers are reduced to one set of names.
- `OrderComparator` (spring-core) is not part of this model. Its `INSTANCE` ordering is written out as `PostProcessorDelegate.OrderRank`: PriorityOrdered first, then `getOrder()` as a Java `int`, with `Ordered.LOWEST_PRECEDENCE` for objects that are not Ordered. `@Order` annotations and order source providers are not read by that comparator and are not modelled.
- The separator "#" is `BeanFactoryUtils.GENERATED_BEAN_NAME_SEPARATOR`, which is not part of this model; the constant is copied.
- ValueResolver.AdaptInnerBeanName: the Java `int` counter is unbounded here. Overflow would need more than 2^31 names in use.
- The `argName` of the value resolver is left out, because it only feeds exception messages.
- TypedStringValue's `setDynamic` and the cached `resolvedElementType` write-back are not modelled.
- The order of a `Properties` table is taken as the sequence order.
- Post-processing side effects on the bean are not modelled: a post-processor is a function from object to object or failure.
- `getTypeForFactoryBean` is left out: it is a call into `getObjectType` that turns a throwable into null.
- AdvisorRetrieval: `isEligibleBean` is a parameter. The helper's default is the constant-true function.
- `Array.set`'s type check (including unboxing and widening into primitive arrays) is a parameter of the value resolver: whether the element type accepts a value.
- Path matching and its comparator (`AntPathMatcher`, `PathPattern`) are parameters: a rank and a variable-extraction function.
- The `PathPattern`-based `lookupHandler` overload is not modelled; it follows the same decisions.
- URL decoding of the template variables is not modelled.
- UrlHandlerMapping: the application context's `isSingleton` and `getBean` are parameters that return a value or an opaque error. Which BeansException subclass they throw is not modelled.
- Interceptor chains and request-attribute exposure are not modelled.
- `validateHandler` is an empty hook and is not modelled.
- MessageConverterResolver.AllSupportedMediaTypes: `MediaType.sortBySpecificity` is not modelled. The list is duplicate-free with the right members, but its order is left unspecified.
- RequestBodyProcessor.HandleReturnValue: `writeWithMessageConverters` and the exceptions it throws are not modelled; only the request-handled flag is.
- `EmptyBodyCheckingHttpInputMessage` stream peeking is a parameter: whether the body is present, and whether checking it failed.
- Multipart resolution and servlet `getParts` are parameters of the request.
- The `ModelAndViewContainer` model attribute name is not modelled; only the binding-result flag is.
- The binder's target and the validator are not modelled, only whether validation reports errors.
- ScopedProxy.CreateScopedProxy: `copyQualifiersFrom` runs only when the target is an `AbstractBeanDefinition`. Every definition is taken to be one.
- ScopedProxy.CreateScopedProxy: the definition's source is taken from the target definition, which is what the holder's `getSource` returns.
- The reflection-bound AspectJ advice classes are not modelled: their decisions are delegated to assignability checks that are not visible.
- SPI interfaces, constants without behaviour, environment detection, XML namespace handling and demo configuration classes are not modelled.
