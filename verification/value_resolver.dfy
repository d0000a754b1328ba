/**
 * BeanDefinitionValueResolver: turning the values held in a bean
 * definition (bean references, inner bean definitions, managed
 * collections, typed strings) into the objects injected into the bean.
 * The factory is a record of collaborators; what resolution does to the
 * factory (dependency edges, containment edges, getBean and createBean
 * calls) is recorded in a log, and the names in use grow with it.
 */
module ValueResolver {
  import opened Common
  import LinkedMaps

  /** BeanFactoryUtils.GENERATED_BEAN_NAME_SEPARATOR. */
  const GENERATED_BEAN_NAME_SEPARATOR: string := "#"

  /** The name prefix of an inner bean definition without a holder. */
  const INNER_BEAN_NAME_PREFIX: string := "(inner bean)"

  /** The element type of a managed array without a type name. */
  const OBJECT_CLASS: Name := "java.lang.Object"

  // ---------------------------------------------------------------------
  // Values

  /** A resolved object, as injected into the bean. */
  datatype Resolved =
    | Null
    | Obj(id: nat)                                       // an object of the application
    | FactoryBeanObj(id: nat)                            // an object implementing FactoryBean
    | NullBeanObj                                        // the factory's NullBean placeholder
    | Text(s: string)                                    // a String
    | Texts(values: seq<string>)                         // a String[]
    | Objects(objects: seq<Resolved>)                    // an Object[]
    | ArrayOf(elementType: Name, elements: seq<Resolved>)
    | ListOf(elements: seq<Resolved>)
    | SetOf(elements: seq<Resolved>)                     // a LinkedHashSet, in iteration order
    | MapOf(entries: seq<(Resolved, Resolved)>)          // a LinkedHashMap, in insertion order
    | PropertiesOf(entries: seq<(Resolved, Resolved)>)   // a Properties table

  /** The target type of a TypedStringValue: none, a resolved class, or a class name still to load. */
  datatype TargetType = NoTargetType | TargetClass(className: Name) | TargetClassName(typeName: Name)

  /** A key or value of a ManagedProperties: a TypedStringValue or any other object. */
  datatype PropItem = TypedItem(text: Option<string>) | PlainItem(obj: Resolved)

  /** A bean definition nested in another; `identityHex` is ObjectUtils.getIdentityHexString of it. */
  datatype InnerDefinition = InnerDefinition(id: nat, identityHex: string)

  /** A value held in a bean definition. */
  datatype Value =
    | BeanReference(refName: Name, beanType: Option<Name>, toParent: bool)    // RuntimeBeanReference
    | BeanNameReference(refName: Name)                                         // RuntimeBeanNameReference
    | InnerBean(holderName: Option<Name>, definition: InnerDefinition)        // BeanDefinitionHolder or bare BeanDefinition
    | Dependency(descriptor: nat)                                              // DependencyDescriptor
    | ManagedArray(elementTypeName: Option<string>, resolvedElementType: Option<Name>, elements: seq<Value>)
    | ManagedList(elements: seq<Value>)
    | ManagedSet(elements: seq<Value>)
    | ManagedMap(entries: seq<MapEntry>)
    | ManagedProperties(items: seq<(PropItem, PropItem)>)
    | TypedString(text: Option<string>, target: TargetType)                    // TypedStringValue
    | Plain(obj: Resolved)                                                     // any other object

  datatype MapEntry = MapEntry(key: Value, value: Value)

  /** The merged definition of an inner bean, as far as the resolver reads it. */
  datatype MergedInner = MergedInner(isSingleton: bool, dependsOn: Option<seq<Name>>, isSynthetic: bool)

  // ---------------------------------------------------------------------
  // The factory

  datatype ParentFactory = ParentFactory(getBean: Name -> Result<Resolved>, getBeanOfType: Name -> Result<Resolved>)

  /**
   * The bean factory and the bean whose definition is being resolved.
   * Every collaborator's failure is a BeansException.
   */
  datatype Factory = Factory(
    beanName: Name,
    containsBean: Name -> bool,
    evaluate: Option<string> -> Resolved,                      // evaluateBeanDefinitionString
    describe: Resolved -> string,                               // toString of any other object
    getBean: Name -> Result<Resolved>,
    resolveNamedBean: Name -> Result<(Name, Resolved)>,
    parent: Option<ParentFactory>,
    resolveDependency: nat -> Result<(Resolved, seq<Name>)>,   // the result and the autowired bean names
    mergedDefinition: (Name, InnerDefinition) -> Result<MergedInner>,
    createBean: (Name, MergedInner) -> Result<Resolved>,
    objectFromFactoryBean: (nat, Name, bool) -> Result<Resolved>,
    loadClass: Name -> Option<Name>,                            // ClassUtils.forName; None if it throws
    convert: (Resolved, Name) -> Option<Resolved>,              // TypeConverter; None if it throws
    storable: (Name, Resolved) -> bool)                         // Array.set accepts the value for the element type

  /** What resolution does to the factory. */
  datatype Event =
    | DependentEdge(bean: Name, dependent: Name)   // registerDependentBean(bean, dependent)
    | ContainedEdge(inner: Name, outer: Name)      // registerContainedBean(inner, outer)
    | GotBean(name: Name)                          // getBean(name)
    | CreatedBean(name: Name)                      // createBean(name, …)

  /** The names in use (isBeanNameInUse) and the log of events so far. */
  datatype State = State(inUse: set<Name>, log: seq<Event>)

  /** A result and the state it leaves behind. */
  datatype Step<T> = Step(result: Result<T>, state: State)

  /** A bean that acquires a dependent (contained beans do too) is in use from then on. */
  function Record(s: State, e: Event): (r: State)
    ensures r.log == s.log + [e]
    ensures r.inUse == s.inUse + (if e.DependentEdge? then {e.bean} else if e.ContainedEdge? then {e.inner} else {})
  {
    match e
    case DependentEdge(b, _) => State(s.inUse + {b}, s.log + [e])
    case ContainedEdge(i, _) => State(s.inUse + {i}, s.log + [e])
    case _ => s.(log := s.log + [e])
  }

  /** Resolution only adds: names in use and events are never lost. */
  predicate Grows(s: State, t: State) {
    s.inUse <= t.inUse && s.log <= t.log
  }

  /** Every failure inside resolveReference and resolveInnerBean is rethrown as a creation error. */
  function Wrapped(f: Factory): Error {
    BeanCreation(Some(f.beanName))
  }

  /** A NullBean is exposed as null. */
  function ExposeNull(o: Resolved): (r: Resolved)
    ensures r == Null <==> o == Null || o == NullBeanObj
    ensures o != NullBeanObj ==> r == o
  {
    if o == NullBeanObj then Null else o
  }

  // ---------------------------------------------------------------------
  // Evaluation

  /** String.valueOf. */
  function StringValueOf(f: Factory, o: Resolved): string {
    match o
    case Null => "null"
    case Text(s) => s
    case _ => f.describe(o)
  }

  /** evaluate(Object): strings are evaluated, a String[] only if some element evaluates to something else. */
  function EvaluateObject(f: Factory, o: Resolved): (r: Resolved)
    ensures o.Text? ==> r == f.evaluate(Some(o.s))
    ensures o.Texts? ==>
              (r == o <==> forall i :: 0 <= i < |o.values| ==> f.evaluate(Some(o.values[i])) == Text(o.values[i]))
    ensures o.Texts? && r != o ==>
              r.Objects? && |r.objects| == |o.values|
              && forall i :: 0 <= i < |o.values| ==> r.objects[i] == f.evaluate(Some(o.values[i]))
    ensures !o.Text? && !o.Texts? ==> r == o
  {
    match o
    case Text(s) => f.evaluate(Some(s))
    case Texts(vs) =>
      var rs := seq(|vs|, i requires 0 <= i < |vs| => f.evaluate(Some(vs[i])));
      if exists i :: 0 <= i < |vs| && rs[i] != Text(vs[i]) then Objects(rs) else Texts(vs)
    case _ => o
  }

  /** A TypedStringValue: evaluated, then converted to its target type if it has one. */
  function ResolveTyped(f: Factory, text: Option<string>, target: TargetType): (r: Result<Resolved>)
    ensures target.NoTargetType? ==> r == Ok(f.evaluate(text))
    ensures target.TargetClassName? && f.loadClass(target.typeName).None? ==> r == Err(Wrapped(f))
    ensures r.Ok? && !target.NoTargetType? ==>
              exists c :: f.convert(f.evaluate(text), c) == Some(r.value)
    ensures r.Err? ==> r.error == Wrapped(f)
    ensures target.TargetClass? ==>
              var converted := f.convert(f.evaluate(text), target.className);
              && (r.Ok? <==> converted.Some?)
              && (r.Ok? ==> r.value == converted.value)
    ensures target.TargetClassName? && f.loadClass(target.typeName).Some? ==>
              var converted := f.convert(f.evaluate(text), f.loadClass(target.typeName).value);
              && (r.Ok? <==> converted.Some?)
              && (r.Ok? ==> r.value == converted.value)
  {
    var valueObject := f.evaluate(text);
    match target
    case NoTargetType => Ok(valueObject)
    case TargetClass(c) => Convert(f, valueObject, c)
    case TargetClassName(n) =>
      match f.loadClass(n)
      case None => Err(Wrapped(f))
      case Some(c) => Convert(f, valueObject, c)
  }

  function Convert(f: Factory, o: Resolved, c: Name): Result<Resolved> {
    match f.convert(o, c)
    case None => Err(Wrapped(f))
    case Some(r) => Ok(r)
  }

  /** The element type of a managed array: the resolved one, the named one, or Object. */
  function ArrayElementType(f: Factory, typeName: Option<string>, resolvedType: Option<Name>): (r: Result<Name>)
    ensures resolvedType.Some? ==> r == Ok(resolvedType.value)
    ensures resolvedType.None? && !HasText(typeName) ==> r == Ok(OBJECT_CLASS)
    ensures resolvedType.None? && HasText(typeName) ==>
              r == (match f.loadClass(typeName.value) case None => Err(Wrapped(f)) case Some(c) => Ok(c))
  {
    if resolvedType.Some? then Ok(resolvedType.value)
    else if HasText(typeName) then
      match f.loadClass(typeName.value)
      case None => Err(Wrapped(f))
      case Some(c) => Ok(c)
    else Ok(OBJECT_CLASS)
  }

  // ---------------------------------------------------------------------
  // Inner bean names

  function Digit(d: nat): char
    requires d < 10
  {
    (48 + d) as char
  }

  /** Integer.toString for non-negative values. */
  function Decimal(n: nat): (s: string)
    ensures |s| >= 1
    ensures n >= 10 ==> |s| >= 2
    decreases n
  {
    if n < 10 then [Digit(n)] else Decimal(n / 10) + [Digit(n % 10)]
  }

  /** Different numbers print differently. */
  lemma {:induction false} DecimalInjective(a: nat, b: nat)
    requires Decimal(a) == Decimal(b)
    ensures a == b
    decreases a
  {
    if a >= 10 && b >= 10 {
      var da := Decimal(a);
      assert da[..|da| - 1] == Decimal(a / 10);
      assert Decimal(b)[..|Decimal(b)| - 1] == Decimal(b / 10);
      DecimalInjective(a / 10, b / 10);
      assert Digit(a % 10) == da[|da| - 1] == Digit(b % 10);
    }
  }

  /** The k-th candidate name: the inner bean name, the separator, and the counter. */
  function Suffixed(name: Name, k: nat): Name {
    name + GENERATED_BEAN_NAME_SEPARATOR + Decimal(k)
  }

  lemma SuffixedInjective(name: Name, a: nat, b: nat)
    ensures Suffixed(name, a) == Suffixed(name, b) ==> a == b
  {
    if Suffixed(name, a) == Suffixed(name, b) {
      var p := name + GENERATED_BEAN_NAME_SEPARATOR;
      assert Decimal(a) == Suffixed(name, a)[|p|..];
      assert Decimal(b) == Suffixed(name, b)[|p|..];
      DecimalInjective(a, b);
    }
  }

  /** The first k candidate names. */
  function Candidates(name: Name, k: nat): (c: set<Name>)
    ensures forall j :: 1 <= j <= k ==> Suffixed(name, j) in c
    decreases k
  {
    if k == 0 then {} else Candidates(name, k - 1) + {Suffixed(name, k)}
  }

  lemma {:induction false} CandidatesCount(name: Name, k: nat)
    ensures |Candidates(name, k)| == k
    ensures forall x :: x in Candidates(name, k) ==> exists j :: 1 <= j <= k && x == Suffixed(name, j)
    decreases k
  {
    if k > 0 {
      CandidatesCount(name, k - 1);
      forall j | 1 <= j <= k - 1
        ensures Suffixed(name, k) != Suffixed(name, j)
      {
        SuffixedInjective(name, k, j);
      }
    }
  }

  /** Only as many candidates can be in use as there are names in use. */
  lemma CandidatesBound(inUse: set<Name>, name: Name, k: nat)
    requires forall j :: 1 <= j <= k ==> Suffixed(name, j) in inUse
    ensures k <= |inUse|
  {
    CandidatesCount(name, k);
    SubsetCardinality(Candidates(name, k), inUse);
  }

  lemma {:induction false} SubsetCardinality<T>(a: set<T>, b: set<T>)
    requires a <= b
    ensures |a| <= |b|
    decreases |a|
  {
    if a != {} {
      var x :| x in a;
      SubsetCardinality(a - {x}, b - {x});
    }
  }

  /** The least counter from `k` on whose candidate is free. */
  function FirstFree(inUse: set<Name>, name: Name, k: nat): (r: nat)
    requires k >= 1
    requires forall j :: 1 <= j < k ==> Suffixed(name, j) in inUse
    ensures r >= k && Suffixed(name, r) !in inUse
    ensures forall j :: 1 <= j < r ==> Suffixed(name, j) in inUse
    decreases |inUse| + 1 - k
  {
    if Suffixed(name, k) !in inUse then k
    else
      CandidatesBound(inUse, name, k);
      FirstFree(inUse, name, k + 1)
  }

  /** The name adaptInnerBeanName settles on. */
  function AdaptedName(inUse: set<Name>, name: Name): (r: Name)
    ensures r !in inUse
    ensures name !in inUse ==> r == name
    ensures name in inUse ==>
              exists k :: k >= 1 && r == Suffixed(name, k) && forall j :: 1 <= j < k ==> Suffixed(name, j) in inUse
  {
    if name !in inUse then name else Suffixed(name, FirstFree(inUse, name, 1))
  }

  /**
   * adaptInnerBeanName: try the name, then the name with counter 1, 2, …
   * until one is not in use.
   */
  method AdaptInnerBeanName(inUse: set<Name>, innerBeanName: Name) returns (actual: Name)
    ensures actual !in inUse
    ensures actual == AdaptedName(inUse, innerBeanName)
  {
    actual := innerBeanName;
    var counter: nat := 0;
    var prefix := innerBeanName + GENERATED_BEAN_NAME_SEPARATOR;
    while actual in inUse
      invariant counter == 0 ==> actual == innerBeanName
      invariant counter >= 1 ==> actual == Suffixed(innerBeanName, counter) && innerBeanName in inUse
      invariant forall j :: 1 <= j < counter ==> Suffixed(innerBeanName, j) in inUse
      decreases |inUse| - counter
    {
      if counter >= 1 {
        CandidatesBound(inUse, innerBeanName, counter);
      }
      counter := counter + 1;
      actual := prefix + Decimal(counter);
    }
    if counter >= 1 {
      // the least free counter is unique
      var k := FirstFree(inUse, innerBeanName, 1);
      assert Suffixed(innerBeanName, k) !in inUse && Suffixed(innerBeanName, counter) !in inUse;
      assert k == counter;
    }
  }

  /** The name of an inner bean: the holder's, or one made from the definition's identity. */
  function InnerBeanName(holderName: Option<Name>, definition: InnerDefinition): Name {
    match holderName
    case Some(n) => n
    case None => INNER_BEAN_NAME_PREFIX + GENERATED_BEAN_NAME_SEPARATOR + definition.identityHex
  }

  // ---------------------------------------------------------------------
  // References and inner beans

  /** resolveReference. */
  function ResolveReference(f: Factory, refName: Name, beanType: Option<Name>, toParent: bool, s: State)
    : (r: Step<Resolved>)
    ensures Grows(s, r.state)
    ensures toParent && f.parent.None? ==> r == Step(Err(Wrapped(f)), s)
    ensures r.result.Err? ==> r.result.error == Wrapped(f)
    ensures r.result.Ok? ==> r.result.value != NullBeanObj
  {
    if toParent then
      match f.parent
      case None => Step(Err(Wrapped(f)), s)
      case Some(parent) =>
        var bean := if beanType.Some? then parent.getBeanOfType(beanType.value)
                    else parent.getBean(StringValueOf(f, f.evaluate(Some(refName))));
        match bean
        case Err(_) => Step(Err(Wrapped(f)), s)
        case Ok(b) => Step(Ok(ExposeNull(b)), s)
    else if beanType.Some? then
      match f.resolveNamedBean(beanType.value)
      case Err(_) => Step(Err(Wrapped(f)), s)
      case Ok(named) => Step(Ok(ExposeNull(named.1)), Record(s, DependentEdge(named.0, f.beanName)))
    else
      var resolvedName := StringValueOf(f, f.evaluate(Some(refName)));
      var s1 := Record(s, GotBean(resolvedName));
      match f.getBean(resolvedName)
      case Err(_) => Step(Err(Wrapped(f)), s1)
      case Ok(b) => Step(Ok(ExposeNull(b)), Record(s1, DependentEdge(resolvedName, f.beanName)))
  }

  /** A local reference by name: getBean, then the edge from the resolved name to this bean. */
  lemma LocalReferenceRegistersDependent(f: Factory, refName: Name, s: State)
    ensures var resolvedName := StringValueOf(f, f.evaluate(Some(refName)));
            var r := ResolveReference(f, refName, None, false, s);
            && (f.getBean(resolvedName).Ok? ==>
                  && r.result == Ok(ExposeNull(f.getBean(resolvedName).value))
                  && r.state.log == s.log + [GotBean(resolvedName), DependentEdge(resolvedName, f.beanName)])
            && (f.getBean(resolvedName).Err? ==>
                  r.result == Err(Wrapped(f)) && r.state.log == s.log + [GotBean(resolvedName)])
  {
  }

  /** The events of the depends-on loop for the given beans: an edge, then getBean, for each. */
  function DependsOnEvents(ds: seq<Name>, actual: Name): seq<Event>
    decreases |ds|
  {
    if |ds| == 0 then [] else DependsOnEvents(ds[..|ds| - 1], actual) + [DependentEdge(ds[|ds| - 1], actual), GotBean(ds[|ds| - 1])]
  }

  /** The depends-on loop of resolveInnerBean, stopping at the first getBean that fails. */
  function DependsOn(f: Factory, ds: seq<Name>, actual: Name, s: State): (r: Step<()>)
    ensures Grows(s, r.state)
    ensures r.result.Ok? ==> r.state.log == s.log + DependsOnEvents(ds, actual)
    ensures r.result.Ok? <==> forall d :: d in ds ==> f.getBean(d).Ok?
    decreases |ds|
  {
    if |ds| == 0 then Step(Ok(()), s)
    else
      var prev := DependsOn(f, ds[..|ds| - 1], actual, s);
      assert forall d :: d in ds <==> d in ds[..|ds| - 1] || d == ds[|ds| - 1];
      if prev.result.Err? then prev
      else
        var d := ds[|ds| - 1];
        var s1 := Record(Record(prev.state, DependentEdge(d, actual)), GotBean(d));
        match f.getBean(d)
        case Err(e) => Step(Err(e), s1)
        case Ok(_) => Step(Ok(()), s1)
  }

  /** The name under which an inner bean is created: adapted only for singletons. */
  function ActualInnerName(mbd: MergedInner, inUse: set<Name>, innerBeanName: Name): Name {
    if mbd.isSingleton then AdaptedName(inUse, innerBeanName) else innerBeanName
  }

  /** resolveInnerBean. */
  function ResolveInnerBean(f: Factory, innerBeanName: Name, definition: InnerDefinition, s: State)
    : (r: Step<Resolved>)
    ensures Grows(s, r.state)
    ensures r.result.Err? ==> r.result.error == Wrapped(f)
    ensures r.result.Ok? ==> r.result.value != NullBeanObj
  {
    match f.mergedDefinition(innerBeanName, definition)
    case Err(_) => Step(Err(Wrapped(f)), s)
    case Ok(mbd) =>
      var actual := ActualInnerName(mbd, s.inUse, innerBeanName);
      var s1 := Record(s, ContainedEdge(actual, f.beanName));
      var deps := DependsOn(f, mbd.dependsOn.GetOr([]), actual, s1);
      if deps.result.Err? then Step(Err(Wrapped(f)), deps.state)
      else
        var s2 := Record(deps.state, CreatedBean(actual));
        match f.createBean(actual, mbd)
        case Err(_) => Step(Err(Wrapped(f)), s2)
        case Ok(inner) =>
          var obj := if inner.FactoryBeanObj? then f.objectFromFactoryBean(inner.id, actual, !mbd.isSynthetic)
                     else Ok(inner);
          match obj
          case Err(_) => Step(Err(Wrapped(f)), s2)
          case Ok(o) => Step(Ok(ExposeNull(o)), s2)
  }

  /**
   * When resolveInnerBean gets as far as createBean, the containment edge,
   * then every depends-on edge with its getBean, come first, under the
   * actual name, which is adapted only for a singleton; that name is in
   * use afterwards, so the next singleton inner bean of the same name gets
   * another one.
   */
  lemma InnerBeanOrder(f: Factory, innerBeanName: Name, definition: InnerDefinition, s: State)
    requires f.mergedDefinition(innerBeanName, definition).Ok?
    ensures var mbd := f.mergedDefinition(innerBeanName, definition).value;
            var actual := ActualInnerName(mbd, s.inUse, innerBeanName);
            var r := ResolveInnerBean(f, innerBeanName, definition, s);
            && (mbd.isSingleton ==> actual !in s.inUse)
            && (!mbd.isSingleton ==> actual == innerBeanName)
            && actual in r.state.inUse
            && ((forall d :: d in mbd.dependsOn.GetOr([]) ==> f.getBean(d).Ok?) ==>
                  r.state.log == s.log + [ContainedEdge(actual, f.beanName)]
                                 + DependsOnEvents(mbd.dependsOn.GetOr([]), actual) + [CreatedBean(actual)])
  {
    var mbd := f.mergedDefinition(innerBeanName, definition).value;
    var actual := ActualInnerName(mbd, s.inUse, innerBeanName);
    var s1 := Record(s, ContainedEdge(actual, f.beanName));
    var deps := DependsOn(f, mbd.dependsOn.GetOr([]), actual, s1);
    assert actual in s1.inUse;
  }

  /** Two singleton inner beans of the same name, one after the other, get different actual names. */
  lemma InnerNamesDistinct(f: Factory, innerBeanName: Name, definition: InnerDefinition, s: State)
    requires f.mergedDefinition(innerBeanName, definition).Ok?
    requires f.mergedDefinition(innerBeanName, definition).value.isSingleton
    ensures var r := ResolveInnerBean(f, innerBeanName, definition, s);
            AdaptedName(r.state.inUse, innerBeanName) != AdaptedName(s.inUse, innerBeanName)
  {
    InnerBeanOrder(f, innerBeanName, definition, s);
  }

  /** The edges for autowired names: only for beans the factory contains. */
  function RegisterAutowired(f: Factory, names: seq<Name>, s: State): (r: State)
    ensures Grows(s, r)
    ensures forall e :: e in r.log[|s.log|..] <==> exists n :: n in names && f.containsBean(n) && e == DependentEdge(n, f.beanName)
    decreases |names|
  {
    if |names| == 0 then s
    else
      var prev := RegisterAutowired(f, names[..|names| - 1], s);
      var n := names[|names| - 1];
      assert forall m :: m in names <==> m in names[..|names| - 1] || m == n;
      var r := if f.containsBean(n) then Record(prev, DependentEdge(n, f.beanName)) else prev;
      assert r.log[|s.log|..] == prev.log[|s.log|..] + (if f.containsBean(n) then [DependentEdge(n, f.beanName)] else []);
      r
  }

  // ---------------------------------------------------------------------
  // Collections

  /** LinkedHashSet.add of each element in turn: the first occurrences, in order. */
  function SetAddAll(acc: seq<Resolved>, xs: seq<Resolved>): (r: seq<Resolved>)
    ensures forall x :: x in r <==> x in acc || x in xs
    ensures NoDuplicates(acc) ==> NoDuplicates(r)
    decreases |xs|
  {
    if |xs| == 0 then acc
    else
      assert forall x :: x in xs <==> x == xs[0] || x in xs[1..];
      var next := if xs[0] in acc then acc else acc + [xs[0]];
      SetAddAll(next, xs[1..])
  }

  /** Without repeats, the set keeps every element in order. */
  lemma {:induction false} SetAddAllDistinct(acc: seq<Resolved>, xs: seq<Resolved>)
    requires NoDuplicates(xs)
    requires forall x :: x in xs ==> x !in acc
    ensures SetAddAll(acc, xs) == acc + xs
    decreases |xs|
  {
    if |xs| > 0 {
      assert NoDuplicates(xs[1..]);
      assert xs[0] !in xs[1..];
      SetAddAllDistinct(acc + [xs[0]], xs[1..]);
      assert acc + [xs[0]] + xs[1..] == acc + xs;
    }
  }

  /** A key or value of a ManagedProperties after evaluation. */
  function PropValue(f: Factory, item: PropItem): Resolved {
    match item
    case TypedItem(t) => f.evaluate(t)
    case PlainItem(o) => o
  }

  /** The ManagedProperties branch: every pair evaluated; a null key or value is a creation error. */
  function ResolveProperties(f: Factory, items: seq<(PropItem, PropItem)>): (r: Result<seq<(Resolved, Resolved)>>)
    ensures r.Ok? <==> forall i :: 0 <= i < |items| ==> PropValue(f, items[i].0) != Null && PropValue(f, items[i].1) != Null
    ensures r.Err? ==> r.error == Wrapped(f)
    ensures r.Ok? ==> r.value == LinkedMaps.PutAll([], PropPairs(f, items))
    decreases |items|
  {
    if |items| == 0 then Ok([])
    else
      var prev :- ResolveProperties(f, items[..|items| - 1]);
      var k := PropValue(f, items[|items| - 1].0);
      var v := PropValue(f, items[|items| - 1].1);
      PropPairsSnoc(f, items);
      if k == Null || v == Null then Err(Wrapped(f))
      else
        PutAllSnoc(PropPairs(f, items[..|items| - 1]), (k, v));
        Ok(LinkedMaps.Put(prev, k, v))
  }

  /** The evaluated pairs, before the null check. */
  function PropPairs(f: Factory, items: seq<(PropItem, PropItem)>): (ps: seq<(Resolved, Resolved)>)
    ensures |ps| == |items|
    ensures forall i :: 0 <= i < |items| ==> ps[i] == (PropValue(f, items[i].0), PropValue(f, items[i].1))
  {
    seq(|items|, i requires 0 <= i < |items| => (PropValue(f, items[i].0), PropValue(f, items[i].1)))
  }

  lemma PropPairsSnoc(f: Factory, items: seq<(PropItem, PropItem)>)
    requires |items| > 0
    ensures var last := items[|items| - 1];
            PropPairs(f, items) == PropPairs(f, items[..|items| - 1]) + [(PropValue(f, last.0), PropValue(f, last.1))]
  {
    var n := |items| - 1;
    var front := PropPairs(f, items[..n]);
    forall i | 0 <= i < n ensures PropPairs(f, items)[i] == front[i] {
      assert items[..n][i] == items[i];
    }
  }

  lemma PutAllSnoc(es: seq<(Resolved, Resolved)>, e: (Resolved, Resolved))
    ensures LinkedMaps.PutAll([], es + [e]) == LinkedMaps.Put(LinkedMaps.PutAll([], es), e.0, e.1)
  {
    LinkedMaps.PutAllSnoc([], es, e);
  }

  // ---------------------------------------------------------------------
  // resolveValueIfNecessary

  /** resolveValueIfNecessary. */
  function Resolve(f: Factory, v: Value, s: State): (r: Step<Resolved>)
    ensures Grows(s, r.state)
    decreases v
  {
    match v
    case BeanReference(n, t, p) => ResolveReference(f, n, t, p, s)
    case BeanNameReference(n) => Step(ResolveBeanName(f, n), s)
    case InnerBean(holderName, d) => ResolveInnerBean(f, InnerBeanName(holderName, d), d, s)
    case Dependency(d) =>
      (match f.resolveDependency(d)
       case Err(e) => Step(Err(e), s)
       case Ok(found) => Step(Ok(found.0), RegisterAutowired(f, found.1, s)))
    case ManagedArray(typeName, resolvedType, es) =>
      (match ArrayElementType(f, typeName, resolvedType)
       case Err(e) => Step(Err(e), s)
       case Ok(et) =>
         var rs := ResolveArray(f, et, es, s);
         Step(if rs.result.Err? then Err(rs.result.error) else Ok(ArrayOf(et, rs.result.value)), rs.state))
    case ManagedList(es) =>
      var rs := ResolveSeq(f, es, s);
      Step(if rs.result.Err? then Err(rs.result.error) else Ok(ListOf(rs.result.value)), rs.state)
    case ManagedSet(es) =>
      var rs := ResolveSeq(f, es, s);
      Step(if rs.result.Err? then Err(rs.result.error) else Ok(SetOf(SetAddAll([], rs.result.value))), rs.state)
    case ManagedMap(es) =>
      var rs := ResolveEntries(f, es, s);
      Step(if rs.result.Err? then Err(rs.result.error) else Ok(MapOf(LinkedMaps.PutAll([], rs.result.value))), rs.state)
    case ManagedProperties(items) =>
      var props := ResolveProperties(f, items);
      Step(if props.Err? then Err(props.error) else Ok(PropertiesOf(props.value)), s)
    case TypedString(text, target) => Step(ResolveTyped(f, text, target), s)
    case Plain(o) => Step(Ok(if o == NullBeanObj then Null else EvaluateObject(f, o)), s)
  }

  /** A RuntimeBeanNameReference: the evaluated name itself, if the factory contains such a bean. */
  function ResolveBeanName(f: Factory, refName: Name): (r: Result<Resolved>)
    ensures var name := StringValueOf(f, f.evaluate(Some(refName)));
            && (r.Ok? <==> f.containsBean(name))
            && (r.Ok? ==> r.value == Text(name))
            && (r.Err? ==> r.error == BeanDefinitionStore)
  {
    var name := StringValueOf(f, f.evaluate(Some(refName)));
    if !f.containsBean(name) then Err(BeanDefinitionStore) else Ok(Text(name))
  }

  /** The elements of a managed list or array, each resolved in the state the previous ones left. */
  function ResolveSeq(f: Factory, vs: seq<Value>, s: State): (r: Step<seq<Resolved>>)
    ensures Grows(s, r.state)
    ensures r.result.Ok? ==> |r.result.value| == |vs|
    decreases vs
  {
    if |vs| == 0 then Step(Ok([]), s)
    else
      var prev := ResolveSeq(f, vs[..|vs| - 1], s);
      if prev.result.Err? then prev
      else
        var last := Resolve(f, vs[|vs| - 1], prev.state);
        Step(if last.result.Err? then Err(last.result.error) else Ok(prev.result.value + [last.result.value]),
             last.state)
  }

  /**
   * resolveManagedArray: each element resolved and stored in turn; storing
   * a value the element type does not accept fails with
   * IllegalArgumentException before the next element is resolved.
   */
  function ResolveArray(f: Factory, et: Name, vs: seq<Value>, s: State): (r: Step<seq<Resolved>>)
    ensures Grows(s, r.state)
    ensures r.result.Ok? ==> |r.result.value| == |vs|
    decreases vs
  {
    if |vs| == 0 then Step(Ok([]), s)
    else
      var prev := ResolveArray(f, et, vs[..|vs| - 1], s);
      if prev.result.Err? then prev
      else
        var last := Resolve(f, vs[|vs| - 1], prev.state);
        if last.result.Err? then Step(Err(last.result.error), last.state)
        else if !f.storable(et, last.result.value) then Step(Err(IllegalArgument), last.state)
        else Step(Ok(prev.result.value + [last.result.value]), last.state)
  }

  /**
   * Storing into the array changes nothing but the outcome: it succeeds
   * exactly when the list resolution does and every value is storable, and
   * then yields the same values and state; if every element resolves but
   * one is not storable, it fails with IllegalArgumentException.
   */
  lemma {:induction false} ResolveArrayIsSeq(f: Factory, et: Name, vs: seq<Value>, s: State)
    ensures var a := ResolveArray(f, et, vs, s);
            var q := ResolveSeq(f, vs, s);
            && (a.result.Ok? <==> q.result.Ok? && forall k :: 0 <= k < |vs| ==> f.storable(et, q.result.value[k]))
            && (a.result.Ok? ==> a == q)
            && (q.result.Ok? && (exists k :: 0 <= k < |vs| && !f.storable(et, q.result.value[k]))
                ==> a.result == Err(IllegalArgument))
    decreases |vs|
  {
    if |vs| > 0 {
      var n := |vs| - 1;
      ResolveArrayIsSeq(f, et, vs[..n], s);
      var pa := ResolveArray(f, et, vs[..n], s);
      var pq := ResolveSeq(f, vs[..n], s);
      var q := ResolveSeq(f, vs, s);
      if pa.result.Ok? {
        var last := Resolve(f, vs[n], pa.state);
        assert pa == pq;
        if last.result.Ok? {
          assert q.result.value == pq.result.value + [last.result.value];
          assert forall k :: 0 <= k < n ==> q.result.value[k] == pq.result.value[k];
          assert q.result.value[n] == last.result.value;
          if f.storable(et, last.result.value) {
            assert forall k :: 0 <= k < |vs| ==> f.storable(et, q.result.value[k]);
          }
        }
      } else if pq.result.Ok? && q.result.Ok? {
        assert forall k :: 0 <= k < n ==> q.result.value[k] == pq.result.value[k];
        var j :| 0 <= j < n && !f.storable(et, pq.result.value[j]);
        assert !f.storable(et, q.result.value[j]);
      }
    }
  }

  /** The entries of a managed map: each key, then its value, resolved in order. */
  function ResolveEntries(f: Factory, es: seq<MapEntry>, s: State): (r: Step<seq<(Resolved, Resolved)>>)
    ensures Grows(s, r.state)
    ensures r.result.Ok? ==> |r.result.value| == |es|
    decreases es
  {
    if |es| == 0 then Step(Ok([]), s)
    else
      var prev := ResolveEntries(f, es[..|es| - 1], s);
      if prev.result.Err? then prev
      else
        var last := ResolveEntry(f, es[|es| - 1], prev.state);
        Step(if last.result.Err? then Err(last.result.error) else Ok(prev.result.value + [last.result.value]),
             last.state)
  }

  function ResolveEntry(f: Factory, e: MapEntry, s: State): (r: Step<(Resolved, Resolved)>)
    ensures Grows(s, r.state)
    decreases e
  {
    var key := Resolve(f, e.key, s);
    if key.result.Err? then Step(Err(key.result.error), key.state)
    else
      var value := Resolve(f, e.value, key.state);
      Step(if value.result.Err? then Err(value.result.error) else Ok((key.result.value, value.result.value)),
           value.state)
  }

  /** The state before the k-th element of a sequence is resolved. */
  function StateBefore(f: Factory, vs: seq<Value>, k: nat, s: State): State
    requires k <= |vs|
  {
    ResolveSeq(f, vs[..k], s).state
  }

  /** The states before the first n elements do not depend on what follows them. */
  lemma StateBeforePrefix(f: Factory, vs: seq<Value>, n: nat, s: State)
    requires n <= |vs|
    ensures forall k :: 0 <= k <= n ==> StateBefore(f, vs[..n], k, s) == StateBefore(f, vs, k, s)
  {
    forall k | 0 <= k <= n ensures StateBefore(f, vs[..n], k, s) == StateBefore(f, vs, k, s) {
      assert vs[..n][..k] == vs[..k];
    }
  }

  /** If every element resolves, so does the managed list. */
  lemma {:induction false} ResolveSeqAllOk(f: Factory, vs: seq<Value>, s: State)
    requires forall k :: 0 <= k < |vs| ==> Resolve(f, vs[k], StateBefore(f, vs, k, s)).result.Ok?
    ensures ResolveSeq(f, vs, s).result.Ok?
    decreases |vs|
  {
    if |vs| > 0 {
      var n := |vs| - 1;
      var front := vs[..n];
      StateBeforePrefix(f, vs, n, s);
      forall k | 0 <= k < n ensures Resolve(f, front[k], StateBefore(f, front, k, s)).result.Ok? {
        assert front[k] == vs[k];
      }
      ResolveSeqAllOk(f, front, s);
      assert vs[..|vs|] == vs;
    }
  }

  /**
   * If the managed list resolves, every element resolved, and the k-th
   * result is the resolution of the k-th value in the state its
   * predecessors left.
   */
  lemma {:induction false} ResolveSeqValues(f: Factory, vs: seq<Value>, s: State)
    ensures var r := ResolveSeq(f, vs, s);
            r.result.Ok? ==>
              forall k :: 0 <= k < |vs| ==>
                var e := Resolve(f, vs[k], StateBefore(f, vs, k, s));
                e.result.Ok? && r.result.value[k] == e.result.value
    decreases |vs|
  {
    if |vs| > 0 {
      var n := |vs| - 1;
      var front := vs[..n];
      ResolveSeqValues(f, front, s);
      StateBeforePrefix(f, vs, n, s);
      assert forall k :: 0 <= k < n ==> front[k] == vs[k];
      assert vs[..|vs|] == vs;
    }
  }

  /** A managed list: same length, element by element, failing exactly when an element fails. */
  lemma ManagedListElementwise(f: Factory, es: seq<Value>, s: State)
    ensures var r := Resolve(f, ManagedList(es), s);
            && (r.result.Ok? <==> forall k :: 0 <= k < |es| ==> Resolve(f, es[k], StateBefore(f, es, k, s)).result.Ok?)
            && (r.result.Ok? ==>
                  && r.result.value.ListOf?
                  && |r.result.value.elements| == |es|
                  && forall k :: 0 <= k < |es| ==>
                       r.result.value.elements[k] == Resolve(f, es[k], StateBefore(f, es, k, s)).result.value)
  {
    ResolveSeqValues(f, es, s);
    if forall k :: 0 <= k < |es| ==> Resolve(f, es[k], StateBefore(f, es, k, s)).result.Ok? {
      ResolveSeqAllOk(f, es, s);
    }
  }

  /** A managed set: the distinct resolved elements in iteration order, nothing else. */
  lemma ManagedSetElements(f: Factory, es: seq<Value>, s: State)
    ensures var r := Resolve(f, ManagedSet(es), s);
            var rs := ResolveSeq(f, es, s);
            r.result.Ok? ==>
              && r.result.value.SetOf?
              && NoDuplicates(r.result.value.elements)
              && (forall x :: x in r.result.value.elements <==> x in rs.result.value)
              && (NoDuplicates(rs.result.value) ==> r.result.value.elements == rs.result.value)
  {
    var rs := ResolveSeq(f, es, s);
    if rs.result.Ok? && NoDuplicates(rs.result.value) {
      SetAddAllDistinct([], rs.result.value);
    }
  }

  /** A managed map: the resolved entries in insertion order, a repeated key keeping its last value. */
  lemma ManagedMapEntries(f: Factory, es: seq<MapEntry>, s: State, k: Resolved)
    ensures var r := Resolve(f, ManagedMap(es), s);
            var rs := ResolveEntries(f, es, s);
            r.result.Ok? ==>
              && r.result.value.MapOf?
              && LinkedMaps.DistinctKeys(r.result.value.entries)
              && LinkedMaps.Get(r.result.value.entries, k)
                 == (if k in LinkedMaps.Keys(rs.result.value) then Some(LinkedMaps.LastValue(rs.result.value, k)) else None)
  {
    var rs := ResolveEntries(f, es, s);
    if rs.result.Ok? {
      LinkedMaps.GetPutAll([], rs.result.value, k);
      LinkedMaps.PutAllDistinct([], rs.result.value);
    }
  }

  /**
   * A managed array: the element type, defaulting to Object, and the
   * elements as for a list, each of which the element type accepts; when
   * every element resolves but one is not accepted, IllegalArgumentException.
   */
  lemma ManagedArrayElements(f: Factory, typeName: Option<string>, resolvedType: Option<Name>, es: seq<Value>, s: State)
    ensures var r := Resolve(f, ManagedArray(typeName, resolvedType, es), s);
            && (r.result.Ok? ==>
                  && r.result.value.ArrayOf?
                  && Ok(r.result.value.elementType) == ArrayElementType(f, typeName, resolvedType)
                  && (resolvedType.None? && !HasText(typeName) ==> r.result.value.elementType == OBJECT_CLASS)
                  && |r.result.value.elements| == |es|
                  && forall k :: 0 <= k < |es| ==>
                       && Resolve(f, es[k], StateBefore(f, es, k, s)).result.Ok?
                       && r.result.value.elements[k] == Resolve(f, es[k], StateBefore(f, es, k, s)).result.value
                       && f.storable(r.result.value.elementType, r.result.value.elements[k]))
            && (ArrayElementType(f, typeName, resolvedType).Ok? ==>
                  var et := ArrayElementType(f, typeName, resolvedType).value;
                  (forall k :: 0 <= k < |es| ==> Resolve(f, es[k], StateBefore(f, es, k, s)).result.Ok?) ==>
                    (r.result.Ok? <==>
                       forall k :: 0 <= k < |es| ==>
                         f.storable(et, Resolve(f, es[k], StateBefore(f, es, k, s)).result.value))
                    && (!r.result.Ok? ==> r.result == Err(IllegalArgument)))
  {
    ResolveSeqValues(f, es, s);
    if ArrayElementType(f, typeName, resolvedType).Ok? {
      var et := ArrayElementType(f, typeName, resolvedType).value;
      ResolveArrayIsSeq(f, et, es, s);
      if forall k :: 0 <= k < |es| ==> Resolve(f, es[k], StateBefore(f, es, k, s)).result.Ok? {
        ResolveSeqAllOk(f, es, s);
      }
    }
  }

  /** A NullBean value resolves to null; a DependencyDescriptor registers edges only for contained beans. */
  lemma NullAndAutowired(f: Factory, d: nat, s: State)
    ensures Resolve(f, Plain(NullBeanObj), s) == Step(Ok(Null), s)
    ensures var r := Resolve(f, Dependency(d), s);
            f.resolveDependency(d).Ok? ==>
              && r.result == Ok(f.resolveDependency(d).value.0)
              && forall e :: e in r.state.log[|s.log|..] <==>
                   exists n :: n in f.resolveDependency(d).value.1 && f.containsBean(n) && e == DependentEdge(n, f.beanName)
  {
  }
}
