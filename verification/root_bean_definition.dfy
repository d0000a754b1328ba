/**
 * RootBeanDefinition: the merged, runtime view of a bean definition.
 *
 * `BeanDef` holds the part of AbstractBeanDefinition that the modelled code
 * reads or writes; `RootDef` adds the fields RootBeanDefinition declares,
 * including its runtime caches. Setters are functions from the old
 * definition to the new one; a setter that throws returns `Err`.
 */
module RootDefinition {
  import opened Common

  datatype ClassRef = ClassRef(className: string)

  /** A java.lang.reflect.Method reduced to its name and return type. */
  datatype MethodRef = MethodRef(methodName: string, returnType: ClassRef)

  /** ResolvableType reduced to the ways the model builds one. */
  datatype ResolvableType =
    | NoneType
    | ForClass(cls: ClassRef)
    | ForMethodReturnType(factoryMethod: MethodRef)
    | Generic(raw: Option<ClassRef>)

  /** ResolvableType.resolve(): the raw class, or null. */
  function Resolve(t: ResolvableType): Option<ClassRef> {
    match t
    case NoneType => None
    case ForClass(c) => Some(c)
    case ForMethodReturnType(m) => Some(m.returnType)
    case Generic(raw) => raw
  }

  /** A property value as the modelled code writes one. */
  datatype PropValue = StringValue(s: string) | BoolValue(b: bool)

  const ROLE_APPLICATION: int := 0
  const ROLE_SUPPORT: int := 1
  const ROLE_INFRASTRUCTURE: int := 2

  /** The AbstractBeanDefinition state used by the core. */
  datatype BeanDef = BeanDef(
    beanClass: Option<ClassRef>,
    role: int,
    autowireCandidate: bool,
    primary: bool,
    factoryMethodName: Option<string>,
    attributes: map<string, bool>,
    propertyValues: seq<(string, PropValue)>,
    qualifiers: set<string>,
    source: Option<string>,
    originating: Option<BeanDef>)

  /** AbstractBeanDefinition's defaults, for a given bean class. */
  function NewBeanDef(beanClass: Option<ClassRef>): BeanDef {
    BeanDef(beanClass, ROLE_APPLICATION, true, false, None, map[], [], {}, None, None)
  }

  /** AbstractBeanDefinition.getResolvableType: the bean class, if any. */
  function BaseResolvableType(d: BeanDef): ResolvableType {
    if d.beanClass.Some? then ForClass(d.beanClass.value) else NoneType
  }

  /** BeanDefinitionHolder: a definition with its name and aliases. */
  datatype Holder<D> = Holder(definition: D, beanName: string, aliases: seq<string>)

  datatype RootDef = RootDef(
    base: BeanDef,
    decoratedDefinition: Option<Holder<BeanDef>>,
    qualifiedElement: Option<string>,
    stale: bool,
    allowCaching: bool,
    isFactoryMethodUnique: bool,
    targetType: Option<ResolvableType>,
    resolvedTargetType: Option<ClassRef>,
    isFactoryBean: Option<bool>,
    factoryMethodReturnType: Option<ResolvableType>,
    factoryMethodToIntrospect: Option<MethodRef>,
    externallyManagedConfigMembers: Option<set<string>>,
    externallyManagedInitMethods: Option<set<string>>,
    externallyManagedDestroyMethods: Option<set<string>>)

  /** `new RootBeanDefinition(beanClass)`: every RootBeanDefinition field at its default. */
  function NewRootDef(beanClass: Option<ClassRef>): RootDef {
    RootDef(NewBeanDef(beanClass), None, None, false, true, false, None, None, None, None, None,
            None, None, None)
  }

  /** getParentName: a root definition never has a parent. */
  function GetParentName(r: RootDef): (p: Option<string>)
    ensures p.None?
  {
    None
  }

  /** setParentName: only null is accepted, and it changes nothing. */
  function SetParentName(r: RootDef, parentName: Option<string>): (res: Result<RootDef>)
    ensures res.Ok? <==> parentName.None?
    ensures res.Ok? ==> res.value == r
    ensures res.Err? ==> res.error == IllegalArgument
  {
    if parentName.Some? then Err(IllegalArgument) else Ok(r)
  }

  /** Shared body of the two factory-method-name setters. */
  function SetFactoryMethodName(r: RootDef, name: Option<string>, unique: bool): (res: Result<RootDef>)
    ensures res.Ok? <==> HasText(name)
    ensures res.Err? ==> res.error == IllegalArgument
    ensures res.Ok? ==> (res.value.base.factoryMethodName == name &&
                         res.value.isFactoryMethodUnique == unique)
    ensures res.Ok? ==> res.value.(base := r.base, isFactoryMethodUnique := r.isFactoryMethodUnique) == r
    ensures res.Ok? ==> res.value.base.(factoryMethodName := r.base.factoryMethodName) == r.base
  {
    if !HasText(name) then Err(IllegalArgument)
    else Ok(r.(base := r.base.(factoryMethodName := name), isFactoryMethodUnique := unique))
  }

  /** setUniqueFactoryMethodName: a non-overloaded factory method. */
  function SetUniqueFactoryMethodName(r: RootDef, name: Option<string>): (res: Result<RootDef>)
    ensures res.Ok? <==> HasText(name)
    ensures res.Ok? ==> res.value.base.factoryMethodName == name && res.value.isFactoryMethodUnique
  {
    SetFactoryMethodName(r, name, true)
  }

  /** setNonUniqueFactoryMethodName: an overloaded factory method. */
  function SetNonUniqueFactoryMethodName(r: RootDef, name: Option<string>): (res: Result<RootDef>)
    ensures res.Ok? <==> HasText(name)
    ensures res.Ok? ==> res.value.base.factoryMethodName == name && !res.value.isFactoryMethodUnique
  {
    SetFactoryMethodName(r, name, false)
  }

  /** isFactoryMethod: the candidate's name equals the factory method name. */
  predicate IsFactoryMethod(r: RootDef, candidate: MethodRef) {
    r.base.factoryMethodName == Some(candidate.methodName)
  }

  /**
   * After a successful setter call, exactly the methods carrying the given
   * name qualify as factory methods, and the uniqueness flag is what the
   * setter chosen says.
   */
  lemma FactoryMethodAfterSet(r: RootDef, name: Option<string>, unique: bool, m: MethodRef)
    requires HasText(name)
    ensures SetFactoryMethodName(r, name, unique).Ok?
    ensures IsFactoryMethod(SetFactoryMethodName(r, name, unique).value, m)
            <==> m.methodName == name.value
    ensures SetUniqueFactoryMethodName(r, name).value.isFactoryMethodUnique
    ensures !SetNonUniqueFactoryMethodName(r, name).value.isFactoryMethodUnique
  {
  }

  /** setTargetType(Class): a class becomes a class-based type, null clears it. */
  function SetTargetTypeClass(r: RootDef, targetType: Option<ClassRef>): (res: RootDef)
    ensures targetType.Some? ==> res.targetType == Some(ForClass(targetType.value))
    ensures targetType.None? ==> res.targetType.None?
    ensures res.(targetType := r.targetType) == r
  {
    r.(targetType := if targetType.Some? then Some(ForClass(targetType.value)) else None)
  }

  /** getTargetType: the resolved target type, else the declared one resolved, else null. */
  function GetTargetType(r: RootDef): Option<ClassRef> {
    if r.resolvedTargetType.Some? then r.resolvedTargetType
    else if r.targetType.Some? then Resolve(r.targetType.value)
    else None
  }

  /**
   * The round trip of the two target-type accessors: with no resolved type
   * cached, getTargetType returns what setTargetType(Class) stored, and
   * null after setTargetType(null). A cached resolved type always wins.
   */
  lemma {:induction false} TargetTypeRoundTrip(r: RootDef, c: Option<ClassRef>)
    ensures r.resolvedTargetType.None? ==> GetTargetType(SetTargetTypeClass(r, c)) == c
    ensures r.resolvedTargetType.Some? ==>
              GetTargetType(SetTargetTypeClass(r, c)) == r.resolvedTargetType
  {
  }

  /**
   * getResolvableType: the declared target type, else the cached factory
   * method return type, else the introspected factory method's return type,
   * else the bean class.
   */
  function GetResolvableType(r: RootDef): ResolvableType {
    if r.targetType.Some? then r.targetType.value
    else if r.factoryMethodReturnType.Some? then r.factoryMethodReturnType.value
    else if r.factoryMethodToIntrospect.Some? then ForMethodReturnType(r.factoryMethodToIntrospect.value)
    else BaseResolvableType(r.base)
  }

  /**
   * The precedence of getResolvableType: a source consulted earlier hides
   * every source consulted later, whatever the later ones hold.
   */
  lemma ResolvableTypePrecedence(r: RootDef, other: RootDef)
    ensures r.targetType.Some? ==>
              GetResolvableType(r.(factoryMethodReturnType := other.factoryMethodReturnType,
                                   factoryMethodToIntrospect := other.factoryMethodToIntrospect,
                                   base := other.base)) == r.targetType.value
    ensures r.targetType.None? && r.factoryMethodReturnType.Some? ==>
              GetResolvableType(r.(factoryMethodToIntrospect := other.factoryMethodToIntrospect,
                                   base := other.base)) == r.factoryMethodReturnType.value
    ensures r.targetType.None? && r.factoryMethodReturnType.None? && r.factoryMethodToIntrospect.Some? ==>
              Resolve(GetResolvableType(r.(base := other.base)))
                == Some(r.factoryMethodToIntrospect.value.returnType)
    ensures r.targetType.None? && r.factoryMethodReturnType.None? && r.factoryMethodToIntrospect.None? ==>
              Resolve(GetResolvableType(r)) == r.base.beanClass
  {
  }

  /** Adds a member to a lazily created set, as the register methods do. */
  function AddToLazySet(s: Option<set<string>>, x: string): (r: Option<set<string>>)
    ensures r.Some? && x in r.value
    ensures s.Some? ==> r.value == s.value + {x}
    ensures s.None? ==> r.value == {x}
  {
    if s.None? then Some({x}) else Some(s.value + {x})
  }

  predicate InLazySet(s: Option<set<string>>, x: string) {
    s.Some? && x in s.value
  }

  function RegisterExternallyManagedConfigMember(r: RootDef, member: string): RootDef {
    r.(externallyManagedConfigMembers := AddToLazySet(r.externallyManagedConfigMembers, member))
  }

  predicate IsExternallyManagedConfigMember(r: RootDef, member: string) {
    InLazySet(r.externallyManagedConfigMembers, member)
  }

  function RegisterExternallyManagedInitMethod(r: RootDef, methodName: string): RootDef {
    r.(externallyManagedInitMethods := AddToLazySet(r.externallyManagedInitMethods, methodName))
  }

  predicate IsExternallyManagedInitMethod(r: RootDef, methodName: string) {
    InLazySet(r.externallyManagedInitMethods, methodName)
  }

  function RegisterExternallyManagedDestroyMethod(r: RootDef, methodName: string): RootDef {
    r.(externallyManagedDestroyMethods := AddToLazySet(r.externallyManagedDestroyMethods, methodName))
  }

  predicate IsExternallyManagedDestroyMethod(r: RootDef, methodName: string) {
    InLazySet(r.externallyManagedDestroyMethods, methodName)
  }

  /**
   * The externally managed sets: a registered member is reported, a fresh
   * definition reports nothing, and registering one member keeps every
   * earlier answer for the other members and the other two sets.
   */
  lemma ExternallyManagedMembers(r: RootDef, x: string, y: string, c: Option<ClassRef>)
    ensures IsExternallyManagedConfigMember(RegisterExternallyManagedConfigMember(r, x), x)
    ensures IsExternallyManagedInitMethod(RegisterExternallyManagedInitMethod(r, x), x)
    ensures IsExternallyManagedDestroyMethod(RegisterExternallyManagedDestroyMethod(r, x), x)
    ensures !IsExternallyManagedConfigMember(NewRootDef(c), y)
    ensures !IsExternallyManagedInitMethod(NewRootDef(c), y)
    ensures !IsExternallyManagedDestroyMethod(NewRootDef(c), y)
    ensures y != x ==>
              (IsExternallyManagedConfigMember(RegisterExternallyManagedConfigMember(r, x), y)
               <==> IsExternallyManagedConfigMember(r, y))
    ensures y != x ==>
              (IsExternallyManagedInitMethod(RegisterExternallyManagedInitMethod(r, x), y)
               <==> IsExternallyManagedInitMethod(r, y))
    ensures y != x ==>
              (IsExternallyManagedDestroyMethod(RegisterExternallyManagedDestroyMethod(r, x), y)
               <==> IsExternallyManagedDestroyMethod(r, y))
    ensures IsExternallyManagedInitMethod(RegisterExternallyManagedConfigMember(r, x), y)
            <==> IsExternallyManagedInitMethod(r, y)
    ensures IsExternallyManagedDestroyMethod(RegisterExternallyManagedConfigMember(r, x), y)
            <==> IsExternallyManagedDestroyMethod(r, y)
    ensures IsExternallyManagedConfigMember(RegisterExternallyManagedInitMethod(r, x), y)
            <==> IsExternallyManagedConfigMember(r, y)
    ensures IsExternallyManagedDestroyMethod(RegisterExternallyManagedInitMethod(r, x), y)
            <==> IsExternallyManagedDestroyMethod(r, y)
    ensures IsExternallyManagedConfigMember(RegisterExternallyManagedDestroyMethod(r, x), y)
            <==> IsExternallyManagedConfigMember(r, y)
    ensures IsExternallyManagedInitMethod(RegisterExternallyManagedDestroyMethod(r, x), y)
            <==> IsExternallyManagedInitMethod(r, y)
  {
  }

  /**
   * The copy constructor: AbstractBeanDefinition state and six
   * RootBeanDefinition fields are copied, every runtime cache starts empty.
   */
  function Copy(original: RootDef): (r: RootDef)
    ensures r.base == original.base
    ensures r.decoratedDefinition == original.decoratedDefinition
    ensures r.qualifiedElement == original.qualifiedElement
    ensures r.allowCaching == original.allowCaching
    ensures r.isFactoryMethodUnique == original.isFactoryMethodUnique
    ensures r.targetType == original.targetType
    ensures r.factoryMethodToIntrospect == original.factoryMethodToIntrospect
    ensures !r.stale && r.resolvedTargetType.None? && r.isFactoryBean.None?
    ensures r.factoryMethodReturnType.None?
    ensures r.externallyManagedConfigMembers.None? && r.externallyManagedInitMethods.None?
    ensures r.externallyManagedDestroyMethods.None?
  {
    RootDef(original.base, original.decoratedDefinition, original.qualifiedElement, false,
            original.allowCaching, original.isFactoryMethodUnique, original.targetType, None, None,
            None, original.factoryMethodToIntrospect, None, None, None)
  }

  /**
   * What a copy answers: its target type is recomputed from the declared
   * target type (the resolved-type cache is not carried over), and its
   * resolvable type skips the original's cached factory-method return type.
   */
  lemma CopyAnswers(original: RootDef)
    ensures GetTargetType(Copy(original)) ==
              (if original.targetType.Some? then Resolve(original.targetType.value) else None)
    ensures original.factoryMethodReturnType.None? ==>
              GetResolvableType(Copy(original)) == GetResolvableType(original)
    ensures original.targetType.None? && original.factoryMethodToIntrospect.Some? ==>
              GetResolvableType(Copy(original)) == ForMethodReturnType(original.factoryMethodToIntrospect.value)
    ensures GetParentName(Copy(original)).None?
  {
  }
}
