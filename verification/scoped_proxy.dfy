/**
 * ScopedProxyUtils: the naming scheme that hides the target of a scoped
 * proxy under "scopedTarget." + name, and the definition rewrite that puts
 * a ScopedProxyFactoryBean in front of it.
 */
module ScopedProxy {
  import opened Common
  import LinkedMaps
  import opened RootDefinition

  const TARGET_NAME_PREFIX: string := "scopedTarget."

  const SCOPED_PROXY_FACTORY_BEAN: ClassRef :=
    ClassRef("org.springframework.aop.scope.ScopedProxyFactoryBean")

  /** AutoProxyUtils.PRESERVE_TARGET_CLASS_ATTRIBUTE. */
  const PRESERVE_TARGET_CLASS_ATTRIBUTE: string :=
    "org.springframework.aop.framework.autoproxy.AutoProxyUtils.preserveTargetClass"

  /** getTargetBeanName: the name the target is registered under. */
  function TargetBeanName(originalBeanName: Name): (r: Name)
    ensures |r| == |TARGET_NAME_PREFIX| + |originalBeanName|
  {
    TARGET_NAME_PREFIX + originalBeanName
  }

  /** isScopedTarget: a non-null name with the target prefix. */
  predicate IsScopedTarget(beanName: Option<Name>) {
    beanName.Some? && StartsWith(beanName.value, TARGET_NAME_PREFIX)
  }

  /** getOriginalBeanName: the name with the prefix removed; anything else is rejected. */
  function OriginalBeanName(targetBeanName: Option<Name>): (r: Result<Name>)
    ensures r.Ok? <==> IsScopedTarget(targetBeanName)
    ensures r.Err? ==> r.error == IllegalArgument
    ensures r.Ok? ==> |r.value| + |TARGET_NAME_PREFIX| == |targetBeanName.value|
  {
    if !IsScopedTarget(targetBeanName) then Err(IllegalArgument)
    else Ok(targetBeanName.value[|TARGET_NAME_PREFIX|..])
  }

  /** Every target name is recognised as one, and maps back to its original. */
  lemma OriginalOfTarget(n: Name)
    ensures IsScopedTarget(Some(TargetBeanName(n)))
    ensures OriginalBeanName(Some(TargetBeanName(n))) == Ok(n)
  {
    assert (TARGET_NAME_PREFIX + n)[|TARGET_NAME_PREFIX|..] == n;
  }

  /** Every recognised target name is the target name of its original. */
  lemma TargetOfOriginal(t: Option<Name>)
    requires IsScopedTarget(t)
    ensures TargetBeanName(OriginalBeanName(t).value) == t.value
  {
    assert t.value == t.value[..|TARGET_NAME_PREFIX|] + t.value[|TARGET_NAME_PREFIX|..];
  }

  /** Distinct originals never share a target name. */
  lemma TargetBeanNameInjective(a: Name, b: Name)
    requires TargetBeanName(a) == TargetBeanName(b)
    ensures a == b
  {
    OriginalOfTarget(a);
    OriginalOfTarget(b);
  }

  /** The target definition after createScopedProxy has changed it in place. */
  function HiddenTarget(target: BeanDef, proxyTargetClass: bool): (t: BeanDef)
    ensures !t.autowireCandidate && !t.primary
    ensures proxyTargetClass ==> PRESERVE_TARGET_CLASS_ATTRIBUTE in t.attributes
                                 && t.attributes[PRESERVE_TARGET_CLASS_ATTRIBUTE]
    ensures !proxyTargetClass ==> t.attributes == target.attributes
    ensures t.(autowireCandidate := target.autowireCandidate, primary := target.primary,
               attributes := target.attributes) == target
  {
    var attrs := if proxyTargetClass then target.attributes[PRESERVE_TARGET_CLASS_ATTRIBUTE := true]
                 else target.attributes;
    target.(attributes := attrs, autowireCandidate := false, primary := false)
  }

  /**
   * createScopedProxy. The proxy definition shares the target definition
   * object (as its decorated and originating definition) and the target is
   * changed afterwards, so all three places hold the changed target.
   */
  function CreateScopedProxy(definition: Holder<BeanDef>, registry: map<Name, BeanDef>,
                             proxyTargetClass: bool): (r: (Holder<RootDef>, map<Name, BeanDef>))
    ensures r.0.beanName == definition.beanName && r.0.aliases == definition.aliases
    ensures r.1 == registry[TargetBeanName(definition.beanName) :=
                            HiddenTarget(definition.definition, proxyTargetClass)]
  {
    var originalBeanName := definition.beanName;
    var target := definition.definition;
    var targetBeanName := TargetBeanName(originalBeanName);
    var hidden := HiddenTarget(target, proxyTargetClass);
    var props := LinkedMaps.Put([], "targetBeanName", StringValue(targetBeanName));
    var props' := if proxyTargetClass then props
                  else LinkedMaps.Put(props, "proxyTargetClass", BoolValue(false));
    var proxyBase := NewBeanDef(Some(SCOPED_PROXY_FACTORY_BEAN)).(
      originating := Some(hidden),
      source := target.source,
      role := target.role,
      propertyValues := props',
      autowireCandidate := target.autowireCandidate,
      primary := target.primary,
      qualifiers := target.qualifiers);
    var proxy := NewRootDef(None).(base := proxyBase,
                                   decoratedDefinition := Some(Holder(hidden, targetBeanName, [])));
    (Holder(proxy, originalBeanName, definition.aliases), registry[targetBeanName := hidden])
  }

  /**
   * What the returned proxy definition promises: it is a
   * ScopedProxyFactoryBean whose "targetBeanName" property names a scoped
   * target that maps back to the returned name and is registered as the
   * decorated definition; it takes over the target's autowiring settings,
   * role and source, while the registered target drops out of autowiring;
   * "proxyTargetClass" is written exactly when class proxying is off.
   */
  lemma CreateScopedProxyContract(definition: Holder<BeanDef>, registry: map<Name, BeanDef>,
                                  proxyTargetClass: bool)
    ensures var (h, reg) := CreateScopedProxy(definition, registry, proxyTargetClass);
            var p := h.definition;
            var tn := LinkedMaps.Get(p.base.propertyValues, "targetBeanName");
            && p.base.beanClass == Some(SCOPED_PROXY_FACTORY_BEAN)
            && tn.Some? && tn.value.StringValue?
            && IsScopedTarget(Some(tn.value.s))
            && OriginalBeanName(Some(tn.value.s)) == Ok(h.beanName)
            && tn.value.s in reg
            && p.decoratedDefinition == Some(Holder(reg[tn.value.s], tn.value.s, []))
            && p.base.originating == Some(reg[tn.value.s])
            && p.base.autowireCandidate == definition.definition.autowireCandidate
            && p.base.primary == definition.definition.primary
            && p.base.qualifiers == definition.definition.qualifiers
            && p.base.role == definition.definition.role
            && p.base.source == definition.definition.source
            && !reg[tn.value.s].autowireCandidate && !reg[tn.value.s].primary
            && (LinkedMaps.Get(p.base.propertyValues, "proxyTargetClass").Some? <==> !proxyTargetClass)
            && (!proxyTargetClass ==>
                  LinkedMaps.Get(p.base.propertyValues, "proxyTargetClass") == Some(BoolValue(false)))
  {
    var n := definition.beanName;
    OriginalOfTarget(n);
    var props := LinkedMaps.Put([], "targetBeanName", StringValue(TargetBeanName(n)));
    LinkedMaps.GetPut([], "targetBeanName", StringValue(TargetBeanName(n)), "targetBeanName");
    LinkedMaps.GetPut([], "targetBeanName", StringValue(TargetBeanName(n)), "proxyTargetClass");
    LinkedMaps.GetPut(props, "proxyTargetClass", BoolValue(false), "targetBeanName");
    LinkedMaps.GetPut(props, "proxyTargetClass", BoolValue(false), "proxyTargetClass");
  }

  /** The registry gains the target name and keeps every other entry. */
  lemma CreateScopedProxyRegistry(definition: Holder<BeanDef>, registry: map<Name, BeanDef>,
                                  proxyTargetClass: bool, other: Name)
    ensures CreateScopedProxy(definition, registry, proxyTargetClass).1.Keys
            == registry.Keys + {TargetBeanName(definition.beanName)}
    ensures other != TargetBeanName(definition.beanName) && other in registry ==>
              CreateScopedProxy(definition, registry, proxyTargetClass).1[other] == registry[other]
  {
  }
}
