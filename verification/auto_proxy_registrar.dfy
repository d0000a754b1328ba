/**
 * AutoProxyRegistrar.registerBeanDefinitions: scan the annotations of the
 * importing class for one carrying an AdviceMode `mode` and a Boolean
 * `proxyTargetClass`, and register (and possibly force class proxying
 * on) the auto-proxy creator accordingly.
 */
module AutoProxyRegistrar {

  datatype AdviceMode = PROXY | ASPECTJ

  /** An annotation attribute value, as far as its runtime class matters. */
  datatype AttrValue = Missing | AdviceModeValue(mode: AdviceMode) | BooleanValue(b: bool) | OtherValue

  /** AnnotationConfigUtils.attributesFor for one annotation type: null or the two attributes. */
  datatype Candidate = NoAttributes | Attributes(mode: AttrValue, proxyTargetClass: AttrValue)

  /**
   * The registry as the two AopConfigUtils calls see it: whether an
   * auto-proxy creator is registered, and whether it is forced to use
   * class proxying.
   */
  datatype CreatorState = CreatorState(registered: bool, proxyTargetClass: bool)

  datatype Outcome = Outcome(state: CreatorState, candidateFound: bool, infoLogged: bool)

  /** The attribute pair has the runtime classes AdviceMode and Boolean. */
  predicate IsCandidate(c: Candidate) {
    c.Attributes? && c.mode.AdviceModeValue? && c.proxyTargetClass.BooleanValue?
  }

  predicate IsProxyCandidate(c: Candidate) {
    IsCandidate(c) && c.mode.mode == PROXY
  }

  predicate ForcesClassProxying(c: Candidate) {
    IsProxyCandidate(c) && c.proxyTargetClass.b
  }

  /** AopConfigUtils.registerAutoProxyCreatorIfNecessary. */
  function RegisterCreator(s: CreatorState): CreatorState {
    s.(registered := true)
  }

  /** AopConfigUtils.forceAutoProxyCreatorToUseClassProxying: only a registered creator is changed. */
  function ForceClassProxying(s: CreatorState): CreatorState {
    if s.registered then s.(proxyTargetClass := true) else s
  }

  /** The loop over the annotation types, from a given state and found flag. */
  function Scan(cands: seq<Candidate>, s: CreatorState, found: bool): (o: Outcome)
    ensures o.candidateFound <==> found || exists i :: 0 <= i < |cands| && IsCandidate(cands[i])
    ensures o.state.registered <==> s.registered || exists i :: 0 <= i < |cands| && IsProxyCandidate(cands[i])
    ensures o.infoLogged <==> !o.candidateFound
  {
    if |cands| == 0 then Outcome(s, found, !found)
    else
      var c := cands[0];
      if !IsCandidate(c) then Scan(cands[1..], s, found)
      else if c.mode.mode == PROXY then
        var s' := RegisterCreator(s);
        if c.proxyTargetClass.b then Outcome(ForceClassProxying(s'), true, false)
        else Scan(cands[1..], s', true)
      else Scan(cands[1..], s, true)
  }

  /** registerBeanDefinitions over the importing class's annotations, in order. */
  function RegisterBeanDefinitions(cands: seq<Candidate>, s: CreatorState): (o: Outcome)
    ensures o.candidateFound <==> exists i :: 0 <= i < |cands| && IsCandidate(cands[i])
    ensures o.state.registered <==> s.registered || exists i :: 0 <= i < |cands| && IsProxyCandidate(cands[i])
    ensures o.infoLogged <==> !o.candidateFound
  {
    Scan(cands, s, false)
  }

  /**
   * Class proxying is forced exactly when it already was, or when some
   * candidate asks for PROXY mode with proxyTargetClass true.
   */
  lemma {:induction false} ScanForces(cands: seq<Candidate>, s: CreatorState, found: bool)
    ensures Scan(cands, s, found).state.proxyTargetClass
            <==> s.proxyTargetClass || exists i :: 0 <= i < |cands| && ForcesClassProxying(cands[i])
    decreases |cands|
  {
    if |cands| > 0 {
      var c := cands[0];
      assert forall i :: 1 <= i < |cands| ==> cands[i] == cands[1..][i - 1];
      if !IsCandidate(c) {
        ScanForces(cands[1..], s, found);
      } else if c.mode.mode == PROXY {
        if !c.proxyTargetClass.b {
          ScanForces(cands[1..], RegisterCreator(s), true);
        }
      } else {
        ScanForces(cands[1..], s, true);
      }
    }
  }

  /**
   * The early return: once a PROXY candidate with proxyTargetClass true is
   * seen, the annotations after it are never looked at.
   */
  lemma {:induction false} StopsAtForcingCandidate(pre: seq<Candidate>, c: Candidate, post: seq<Candidate>,
                                                   post': seq<Candidate>, s: CreatorState, found: bool)
    requires ForcesClassProxying(c)
    ensures Scan(pre + [c] + post, s, found) == Scan(pre + [c] + post', s, found)
    decreases |pre|
  {
    if |pre| == 0 {
      assert pre + [c] + post == [c] + post;
      assert pre + [c] + post' == [c] + post';
    } else {
      assert (pre + [c] + post)[1..] == pre[1..] + [c] + post;
      assert (pre + [c] + post')[1..] == pre[1..] + [c] + post';
      var d := pre[0];
      if !IsCandidate(d) {
        StopsAtForcingCandidate(pre[1..], c, post, post', s, found);
      } else if d.mode.mode == PROXY {
        if !d.proxyTargetClass.b {
          StopsAtForcingCandidate(pre[1..], c, post, post', RegisterCreator(s), true);
        }
      } else {
        StopsAtForcingCandidate(pre[1..], c, post, post', s, true);
      }
    }
  }

  /** With no candidate annotation the registry is left as it was. */
  lemma NoCandidateNoChange(cands: seq<Candidate>, s: CreatorState)
    requires forall i :: 0 <= i < |cands| ==> !IsCandidate(cands[i])
    ensures RegisterBeanDefinitions(cands, s).state == s
    ensures RegisterBeanDefinitions(cands, s).infoLogged
  {
    ScanForces(cands, s, false);
  }
}
