/**
 * AspectJProxyUtils.makeAdvisorChainAspectJCapableIfNecessary: an advisor
 * chain that holds AspectJ advice gets ExposeInvocationInterceptor's
 * advisor in front, once.
 */
module AspectJChain {

  /** How an advisor's pointcut looks to the AspectJ check. */
  datatype PointcutKind = NotPointcutAdvisor | OtherPointcut | AspectJExpressionPointcut

  /**
   * An advisor: ExposeInvocationInterceptor.ADVISOR, or any other advisor
   * described by the three facts isAspectJAdvice looks at.
   */
  datatype Advisor =
    | ExposeInvocationAdvisor
    | OtherAdvisor(id: nat, instantiationModelAware: bool, aspectJAdvice: bool, pointcut: PointcutKind)

  /** isAspectJAdvice. The expose-invocation advisor carries no AspectJ advice. */
  predicate IsAspectJAdvice(a: Advisor) {
    a.OtherAdvisor? &&
    (a.instantiationModelAware || a.aspectJAdvice || a.pointcut == AspectJExpressionPointcut)
  }

  /** The chain needs the extra advisor: it holds AspectJ advice but not the advisor yet. */
  predicate NeedsExposeAdvisor(advisors: seq<Advisor>) {
    (exists i :: 0 <= i < |advisors| && IsAspectJAdvice(advisors[i]))
    && ExposeInvocationAdvisor !in advisors
  }

  /**
   * makeAdvisorChainAspectJCapableIfNecessary: returns the new chain and
   * whether the advisor was added. The result never needs the advisor
   * again, so a second call returns false and changes nothing.
   */
  method MakeAdvisorChainAspectJCapable(advisors: seq<Advisor>) returns (result: seq<Advisor>, added: bool)
    ensures added <==> NeedsExposeAdvisor(advisors)
    ensures added ==> result == [ExposeInvocationAdvisor] + advisors
    ensures !added ==> result == advisors
    ensures !NeedsExposeAdvisor(result)
  {
    result, added := advisors, false;
    if |advisors| > 0 {
      var foundAspectJAdvice := false;
      var i := 0;
      while i < |advisors|
        invariant 0 <= i <= |advisors|
        invariant foundAspectJAdvice <==> exists j :: 0 <= j < i && IsAspectJAdvice(advisors[j])
        invariant !foundAspectJAdvice
      {
        if IsAspectJAdvice(advisors[i]) {
          foundAspectJAdvice := true;
          break;
        }
        i := i + 1;
      }
      if foundAspectJAdvice && ExposeInvocationAdvisor !in advisors {
        result, added := [ExposeInvocationAdvisor] + advisors, true;
      }
    }
    if added {
      assert result[0] == ExposeInvocationAdvisor;
    }
  }
}
