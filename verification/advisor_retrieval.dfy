/**
 * BeanFactoryAdvisorRetrievalHelper.findAdvisorBeans: fetch every eligible
 * Advisor bean that is not currently in creation, skipping advisors whose
 * creation failed only because of a bean that is itself in creation.
 */
module AdvisorRetrieval {
  import opened Common

  /**
   * What getBean(name, Advisor.class) does: return the advisor, or throw
   * `thrown`. `inCreationCause` is present only when `thrown` is a
   * BeanCreationException whose most specific cause is a
   * BeanCurrentlyInCreationException; it is that exception's bean name.
   */
  datatype GetBeanOutcome<A> = Created(advisor: A) | Failed(thrown: Error, inCreationCause: Option<Name>)

  /** The bean factory as the helper queries it. */
  datatype Factory<A> = Factory(
    advisorBeanNames: seq<Name>,
    inCreation: set<Name>,
    getBean: Name -> GetBeanOutcome<A>)

  /** The helper's only state: the cached advisor bean names. */
  datatype Helper = Helper(cachedAdvisorBeanNames: Option<seq<Name>>)

  /** A failure that the helper skips: the root cause names a bean in creation. */
  predicate SkippableFailure<A>(f: Factory<A>, o: GetBeanOutcome<A>) {
    o.Failed? && o.inCreationCause.Some? && o.inCreationCause.value in f.inCreation
  }

  /** The per-name loop body folded over the names. */
  function Collect<A>(names: seq<Name>, f: Factory<A>, isEligible: Name -> bool): (r: Result<seq<A>>)
    ensures r.Err? ==> exists i :: 0 <= i < |names| && isEligible(names[i])
                                   && names[i] !in f.inCreation
                                   && f.getBean(names[i]).Failed?
                                   && !SkippableFailure(f, f.getBean(names[i]))
                                   && r.error == f.getBean(names[i]).thrown
    ensures r.Ok? ==> |r.value| <= |names|
  {
    if |names| == 0 then Ok([])
    else
      var name := names[0];
      if !isEligible(name) || name in f.inCreation then Collect(names[1..], f, isEligible)
      else
        var o := f.getBean(name);
        if o.Created? then
          var rest :- Collect(names[1..], f, isEligible);
          Ok([o.advisor] + rest)
        else if SkippableFailure(f, o) then Collect(names[1..], f, isEligible)
        else Err(o.thrown)
  }

  /** The loop distributes over the name list: the first failure wins. */
  lemma {:induction false} CollectAppend<A>(a: seq<Name>, b: seq<Name>, f: Factory<A>, isEligible: Name -> bool)
    ensures Collect(a + b, f, isEligible) ==
            (match Collect(a, f, isEligible)
             case Err(e) => Err(e)
             case Ok(x) =>
               match Collect(b, f, isEligible)
               case Err(e) => Err(e)
               case Ok(y) => Ok(x + y))
    decreases |a|
  {
    if |a| == 0 {
      assert a + b == b;
      var restB := Collect(b, f, isEligible);
      if restB.Ok? {
        assert [] + restB.value == restB.value;
      }
    } else {
      assert (a + b)[1..] == a[1..] + b;
      assert (a + b)[0] == a[0];
      CollectAppend(a[1..], b, f, isEligible);
      var rest := Collect(a[1..], f, isEligible);
      var restB := Collect(b, f, isEligible);
      if rest.Ok? && restB.Ok? {
        assert [a[0]] + a[1..] == a;
      }
      match f.getBean(a[0])
      case Created(adv) =>
        if rest.Ok? && restB.Ok? {
          assert [adv] + (rest.value + restB.value) == ([adv] + rest.value) + restB.value;
        }
      case Failed(_, _) =>
    }
  }

  /** Names of beans in creation, and ineligible names, contribute nothing. */
  lemma SkippedNamesContributeNothing<A>(name: Name, f: Factory<A>, isEligible: Name -> bool)
    requires !isEligible(name) || name in f.inCreation
    ensures Collect([name], f, isEligible) == Ok([])
  {
  }

  /**
   * One name, all four outcomes: skipped, its advisor added, a skippable
   * failure ignored, or any other failure's exception rethrown unchanged.
   */
  lemma CollectOne<A>(name: Name, f: Factory<A>, isEligible: Name -> bool)
    ensures !isEligible(name) || name in f.inCreation ==> Collect([name], f, isEligible) == Ok([])
    ensures isEligible(name) && name !in f.inCreation && f.getBean(name).Created? ==>
              Collect([name], f, isEligible) == Ok([f.getBean(name).advisor])
    ensures isEligible(name) && name !in f.inCreation && SkippableFailure(f, f.getBean(name)) ==>
              Collect([name], f, isEligible) == Ok([])
    ensures isEligible(name) && name !in f.inCreation && f.getBean(name).Failed?
            && !SkippableFailure(f, f.getBean(name)) ==>
              Collect([name], f, isEligible) == Err(f.getBean(name).thrown)
  {
    assert [name][1..] == [];
    if f.getBean(name).Created? {
      assert [f.getBean(name).advisor] + [] == [f.getBean(name).advisor];
    }
  }

  /** With every name eligible and creatable, the result lists the advisors in name order. */
  lemma {:induction false} CollectAllCreated<A>(names: seq<Name>, f: Factory<A>, isEligible: Name -> bool)
    requires forall i :: 0 <= i < |names| ==> isEligible(names[i]) && names[i] !in f.inCreation
                                              && f.getBean(names[i]).Created?
    ensures Collect(names, f, isEligible).Ok?
    ensures |Collect(names, f, isEligible).value| == |names|
    ensures forall i :: 0 <= i < |names| ==>
              Collect(names, f, isEligible).value[i] == f.getBean(names[i]).advisor
    decreases |names|
  {
    if |names| > 0 {
      CollectAllCreated(names[1..], f, isEligible);
    }
  }

  /**
   * findAdvisorBeans: the cached names when present, else the factory's
   * advisor bean names, which are cached before anything else happens.
   */
  function FindAdvisorBeans<A>(h: Helper, f: Factory<A>, isEligible: Name -> bool): (r: (Result<seq<A>>, Helper))
    ensures r.1.cachedAdvisorBeanNames.Some?
    ensures h.cachedAdvisorBeanNames.Some? ==> r.1 == h
    ensures h.cachedAdvisorBeanNames.None? ==> r.1.cachedAdvisorBeanNames == Some(f.advisorBeanNames)
    ensures |r.1.cachedAdvisorBeanNames.value| == 0 ==> r.0 == Ok([])
  {
    var names := if h.cachedAdvisorBeanNames.Some? then h.cachedAdvisorBeanNames.value
                 else f.advisorBeanNames;
    var h' := Helper(Some(names));
    if |names| == 0 then (Ok([]), h') else (Collect(names, f, isEligible), h')
  }

  /**
   * The name cache is never refreshed: a second call sees the names of the
   * first, even after the factory has gained or lost advisor beans.
   */
  lemma CachedNamesAreReused<A>(h: Helper, f: Factory<A>, f': Factory<A>, isEligible: Name -> bool)
    requires f'.inCreation == f.inCreation && f'.getBean == f.getBean
    ensures var (_, h1) := FindAdvisorBeans(h, f, isEligible);
            FindAdvisorBeans(h1, f', isEligible) == FindAdvisorBeans(h1, f, isEligible)
    ensures var (r1, h1) := FindAdvisorBeans(h, f, isEligible);
            FindAdvisorBeans(h1, f', isEligible) == (r1, h1)
  {
    var (_, h1) := FindAdvisorBeans(h, f, isEligible);
    CollectIgnoresNameQuery(h1.cachedAdvisorBeanNames.value, f, f', isEligible);
  }

  /** Collect reads the factory's creation state and beans, not its name query. */
  lemma {:induction false} CollectIgnoresNameQuery<A>(names: seq<Name>, f: Factory<A>, f': Factory<A>,
                                                      isEligible: Name -> bool)
    requires f'.inCreation == f.inCreation && f'.getBean == f.getBean
    ensures Collect(names, f', isEligible) == Collect(names, f, isEligible)
    decreases |names|
  {
    if |names| > 0 {
      CollectIgnoresNameQuery(names[1..], f, f', isEligible);
    }
  }
}
