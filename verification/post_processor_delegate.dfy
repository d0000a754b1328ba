/**
 * PostProcessorRegistrationDelegate: the staged invocation of bean factory
 * post-processors (registry callbacks by PriorityOrdered, Ordered and the
 * rest, with rediscovery, then the factory callbacks) and the
 * registration order of bean post-processors. Post-processors are named by
 * a reference; the bean factory is a catalog of the post-processor
 * definitions that exist or can be registered.
 */
module PostProcessorDelegate {
  import opened Common
  import OrderSort

  /** Which ordering interface a post-processor implements. */
  datatype Kind = PriorityOrderedKind | OrderedKind | PlainKind

  /** The position of a kind in the priority, ordered, rest staging. */
  function KindLevel(k: Kind): nat {
    match k
    case PriorityOrderedKind => 0
    case OrderedKind => 1
    case PlainKind => 2
  }

  /** A Java int, the type of Ordered.getOrder. */
  newtype Int32 = x: int | -0x8000_0000 <= x < 0x8000_0000

  /** Ordered.LOWEST_PRECEDENCE (Integer.MAX_VALUE). */
  const LowestPrecedence: Int32 := 0x7FFF_FFFF

  /** The order OrderComparator reads: the declared one of an Ordered object, LOWEST_PRECEDENCE otherwise. */
  function EffectiveOrder(kind: Kind, order: Int32): Int32 {
    if kind == PlainKind then LowestPrecedence else order
  }

  /**
   * OrderComparator.INSTANCE as one rank: PriorityOrdered objects before
   * all others whatever their order, then ascending effective order.
   */
  function OrderRank(kind: Kind, order: Int32): int {
    (if kind == PriorityOrderedKind then 0 else 0x1_0000_0000) + EffectiveOrder(kind, order) as int
  }

  /** Comparing ranks is OrderComparator.doCompare: priority first, then Integer.compare of the orders. */
  lemma OrderRankCompares(k1: Kind, o1: Int32, k2: Kind, o2: Int32)
    ensures OrderRank(k1, o1) < OrderRank(k2, o2) <==>
            (k1 == PriorityOrderedKind && k2 != PriorityOrderedKind)
            || ((k1 == PriorityOrderedKind) == (k2 == PriorityOrderedKind)
                && EffectiveOrder(k1, o1) < EffectiveOrder(k2, o2))
    ensures OrderRank(k1, o1) == OrderRank(k2, o2) <==>
            (k1 == PriorityOrderedKind) == (k2 == PriorityOrderedKind)
            && EffectiveOrder(k1, o1) == EffectiveOrder(k2, o2)
  {
  }

  /**
   * A bean factory post-processor definition: whether it is a
   * BeanDefinitionRegistryPostProcessor, its ordering interface and order
   * value, and the definitions its registry callback registers.
   */
  datatype Def = Def(isRegistryProcessor: bool, kind: Kind, order: Int32, registers: seq<Name>)

  /** A post-processor handed to the context directly rather than defined as a bean. */
  datatype SuppliedProcessor = SuppliedProcessor(isRegistryProcessor: bool, registers: seq<Name>)

  /**
   * The bean factory as far as the pipeline sees it: the catalog of
   * post-processor definitions, the directly supplied processors, and the
   * optional dependency comparator of a DefaultListableBeanFactory (as a
   * rank over bean names).
   */
  datatype Env = Env(catalog: map<Name, Def>, supplied: seq<SuppliedProcessor>,
                     dependencyComparator: Option<Name -> int>)

  datatype ProcRef = Supplied(index: nat) | BeanProc(name: Name)

  /** The stage in which a registry callback happens; every rediscovery pass is its own stage. */
  datatype Phase = SuppliedPhase | PriorityPhase | OrderedPhase | RemainingPhase(pass: nat)

  function PhaseLevel(p: Phase): nat {
    match p
    case SuppliedPhase => 0
    case PriorityPhase => 1
    case OrderedPhase => 2
    case RemainingPhase(pass) => 3 + pass
  }

  /** The observable calls: the two callbacks and the final clearing of merged definitions. */
  datatype Event =
    | RegistryCallback(target: ProcRef, phase: Phase)
    | FactoryCallback(target: ProcRef)
    | ClearMetadataCache

  // ---------------------------------------------------------------------
  // sortPostProcessors

  /** The comparator in use: the dependency comparator if the factory has one, else OrderComparator. */
  function ComparatorToUse<T>(dependencyComparator: Option<T -> int>, orderComparator: T -> int): (c: T -> int)
    ensures dependencyComparator.Some? ==> c == dependencyComparator.value
    ensures dependencyComparator.None? ==> c == orderComparator
  {
    if dependencyComparator.Some? then dependencyComparator.value else orderComparator
  }

  /** sortPostProcessors: lists of at most one element are left alone, the rest sorted stably. */
  function SortPostProcessors<T>(ps: seq<T>, dependencyComparator: Option<T -> int>,
                                 orderComparator: T -> int): (r: seq<T>)
    ensures |ps| <= 1 ==> r == ps
    ensures multiset(r) == multiset(ps)
    ensures OrderSort.SortedByRank(r, ComparatorToUse(dependencyComparator, orderComparator))
  {
    if |ps| <= 1 then ps
    else OrderSort.SortByRank(ps, ComparatorToUse(dependencyComparator, orderComparator))
  }

  /** OrderComparator over post-processor beans; a name without a definition ranks as a plain object. */
  function OrderComparator(catalog: map<Name, Def>): Name -> int {
    n => if n in catalog then OrderRank(catalog[n].kind, catalog[n].order) else OrderRank(PlainKind, 0)
  }

  function RankOf(env: Env): Name -> int {
    ComparatorToUse(env.dependencyComparator, OrderComparator(env.catalog))
  }

  function SortNames(ns: seq<Name>, env: Env): (r: seq<Name>)
    ensures OrderSort.SortedByRank(r, RankOf(env))
    ensures forall n :: n in r <==> n in ns
    ensures NoDuplicates(ns) ==> NoDuplicates(r)
  {
    var r := SortPostProcessors(ns, env.dependencyComparator, OrderComparator(env.catalog));
    assert forall n :: n in r <==> n in multiset(r);
    assert forall n :: n in ns <==> n in multiset(ns);
    assert NoDuplicates(ns) ==> NoDuplicates(r) by {
      if NoDuplicates(ns) {
        PermutationKeepsDistinct(ns, r);
      }
    }
    r
  }

  /**
   * Without a dependency comparator the sorted names follow OrderComparator:
   * a PriorityOrdered definition is never preceded by one that is not, and
   * definitions alike in that respect come by ascending effective order.
   */
  lemma SortNamesByOrderComparator(ns: seq<Name>, env: Env)
    ensures var r := SortNames(ns, env);
            env.dependencyComparator.None? ==>
            forall i, j :: 0 <= i < j < |r| && r[i] in env.catalog && r[j] in env.catalog ==>
              var a, b := env.catalog[r[i]], env.catalog[r[j]];
              (b.kind == PriorityOrderedKind ==> a.kind == PriorityOrderedKind)
              && ((a.kind == PriorityOrderedKind) == (b.kind == PriorityOrderedKind)
                  ==> EffectiveOrder(a.kind, a.order) <= EffectiveOrder(b.kind, b.order))
  {
    var r := SortNames(ns, env);
    if env.dependencyComparator.None? {
      forall i, j | 0 <= i < j < |r| && r[i] in env.catalog && r[j] in env.catalog
        ensures var a, b := env.catalog[r[i]], env.catalog[r[j]];
                (b.kind == PriorityOrderedKind ==> a.kind == PriorityOrderedKind)
                && ((a.kind == PriorityOrderedKind) == (b.kind == PriorityOrderedKind)
                    ==> EffectiveOrder(a.kind, a.order) <= EffectiveOrder(b.kind, b.order))
      {
        var a, b := env.catalog[r[i]], env.catalog[r[j]];
        assert RankOf(env)(r[i]) <= RankOf(env)(r[j]);
        OrderRankCompares(a.kind, a.order, b.kind, b.order);
      }
    }
  }

  /** At most one occurrence of each element in a duplicate-free sequence. */
  lemma {:induction false} DistinctCount<T>(s: seq<T>, x: T)
    requires NoDuplicates(s)
    ensures multiset(s)[x] <= 1
    decreases |s|
  {
    if |s| > 0 {
      assert s == [s[0]] + s[1..];
      DistinctCount(s[1..], x);
      if s[0] == x {
        assert x !in s[1..];
      }
    }
  }

  lemma PermutationKeepsDistinct<T>(a: seq<T>, b: seq<T>)
    requires NoDuplicates(a) && multiset(a) == multiset(b)
    ensures NoDuplicates(b)
  {
    forall i, j | 0 <= i < j < |b| ensures b[i] != b[j] {
      if b[i] == b[j] {
        assert b == b[..j] + b[j..];
        assert b[i] in b[..j];
        assert multiset(b)[b[i]] == multiset(b[..j])[b[i]] + multiset(b[j..])[b[i]];
        DistinctCount(a, b[i]);
      }
    }
  }

  // ---------------------------------------------------------------------
  // Events

  function RegistryEvents(refs: seq<ProcRef>, phase: Phase): (es: seq<Event>)
    ensures |es| == |refs|
    ensures forall i :: 0 <= i < |refs| ==> es[i] == RegistryCallback(refs[i], phase)
  {
    seq(|refs|, i requires 0 <= i < |refs| => RegistryCallback(refs[i], phase))
  }

  function FactoryEvents(refs: seq<ProcRef>): (es: seq<Event>)
    ensures |es| == |refs|
    ensures forall i :: 0 <= i < |refs| ==> es[i] == FactoryCallback(refs[i])
  {
    seq(|refs|, i requires 0 <= i < |refs| => FactoryCallback(refs[i]))
  }

  function BeanRefs(ns: seq<Name>): (refs: seq<ProcRef>)
    ensures |refs| == |ns|
    ensures forall i :: 0 <= i < |ns| ==> refs[i] == BeanProc(ns[i])
  {
    seq(|ns|, i requires 0 <= i < |ns| => BeanProc(ns[i]))
  }

  /** The targets of the registry callbacks (or of the factory callbacks), in call order. */
  function Targets(t: seq<Event>, registry: bool): seq<ProcRef>
    decreases |t|
  {
    if |t| == 0 then []
    else
      var e := t[|t| - 1];
      Targets(t[..|t| - 1], registry)
      + (if (registry && e.RegistryCallback?) || (!registry && e.FactoryCallback?) then [e.target] else [])
  }

  lemma {:induction false} TargetsAppend(a: seq<Event>, b: seq<Event>, registry: bool)
    ensures Targets(a + b, registry) == Targets(a, registry) + Targets(b, registry)
    decreases |b|
  {
    if |b| == 0 {
      assert a + b == a;
    } else {
      assert (a + b)[..|a + b| - 1] == a + b[..|b| - 1];
      TargetsAppend(a, b[..|b| - 1], registry);
    }
  }

  lemma {:induction false} TargetsOfRegistryEvents(refs: seq<ProcRef>, phase: Phase)
    ensures Targets(RegistryEvents(refs, phase), true) == refs
    ensures Targets(RegistryEvents(refs, phase), false) == []
    decreases |refs|
  {
    if |refs| > 0 {
      var n := |refs|;
      assert RegistryEvents(refs, phase)[..n - 1] == RegistryEvents(refs[..n - 1], phase);
      TargetsOfRegistryEvents(refs[..n - 1], phase);
      assert refs == refs[..n - 1] + [refs[n - 1]];
    }
  }

  lemma {:induction false} TargetsOfFactoryEvents(refs: seq<ProcRef>)
    ensures Targets(FactoryEvents(refs), false) == refs
    ensures Targets(FactoryEvents(refs), true) == []
    decreases |refs|
  {
    if |refs| > 0 {
      var n := |refs|;
      assert FactoryEvents(refs)[..n - 1] == FactoryEvents(refs[..n - 1]);
      TargetsOfFactoryEvents(refs[..n - 1]);
      assert refs == refs[..n - 1] + [refs[n - 1]];
    }
  }

  // ---------------------------------------------------------------------
  // Discovery and registration of definitions

  /** Which kinds a discovery pass takes. */
  datatype Selector = AnyKind | OnlyPriorityOrdered | OrderedOrPriority | OnlyOrdered | OnlyPlain

  predicate Selects(sel: Selector, k: Kind) {
    match sel
    case AnyKind => true
    case OnlyPriorityOrdered => k == PriorityOrderedKind
    case OrderedOrPriority => k != PlainKind
    case OnlyOrdered => k == OrderedKind
    case OnlyPlain => k == PlainKind
  }

  /** What one discovery pass over getBeanNamesForType takes. */
  predicate Picked(catalog: map<Name, Def>, processed: set<Name>, registryOnly: bool, sel: Selector, n: Name) {
    n in catalog && (!registryOnly || catalog[n].isRegistryProcessor)
    && n !in processed && Selects(sel, catalog[n].kind)
  }

  /** The names a discovery pass takes, in definition order. */
  function Pick(names: seq<Name>, catalog: map<Name, Def>, processed: set<Name>,
                registryOnly: bool, sel: Selector): (found: seq<Name>)
    ensures forall n :: n in found <==> n in names && Picked(catalog, processed, registryOnly, sel, n)
    ensures NoDuplicates(names) ==> NoDuplicates(found)
    decreases |names|
  {
    if |names| == 0 then []
    else
      var rest := Pick(names[1..], catalog, processed, registryOnly, sel);
      assert forall n :: n in names <==> n == names[0] || n in names[1..];
      if Picked(catalog, processed, registryOnly, sel, names[0]) then [names[0]] + rest else rest
  }

  /**
   * A registry callback registering definitions: a name with a definition
   * that is not yet registered is appended to the definition names.
   */
  function AddDefinitions(names: seq<Name>, adds: seq<Name>, catalog: map<Name, Def>): (r: seq<Name>)
    ensures names <= r
    ensures forall n :: n in r <==> n in names || (n in adds && n in catalog)
    ensures NoDuplicates(names) ==> NoDuplicates(r)
    decreases |adds|
  {
    if |adds| == 0 then names
    else
      var n := adds[0];
      var names' := if n in catalog && n !in names then names + [n] else names;
      assert forall m :: m in adds <==> m == n || m in adds[1..];
      AddDefinitions(names', adds[1..], catalog)
  }

  function RegistersOf(p: ProcRef, env: Env): seq<Name> {
    match p
    case Supplied(i) => if i < |env.supplied| then env.supplied[i].registers else []
    case BeanProc(n) => if n in env.catalog then env.catalog[n].registers else []
  }

  /** invokeBeanDefinitionRegistryPostProcessors, as far as the definition names are concerned. */
  function RunRegistryCallbacks(names: seq<Name>, refs: seq<ProcRef>, env: Env): (r: seq<Name>)
    ensures names <= r
    ensures forall n :: n in r ==> n in names || n in env.catalog
    ensures NoDuplicates(names) ==> NoDuplicates(r)
    decreases |refs|
  {
    if |refs| == 0 then names
    else RunRegistryCallbacks(AddDefinitions(names, RegistersOf(refs[0], env), env.catalog), refs[1..], env)
  }

  // ---------------------------------------------------------------------
  // The registry stage

  datatype State = State(names: seq<Name>, processed: set<Name>, registryProcessors: seq<ProcRef>,
                         regular: seq<ProcRef>, trace: seq<Event>)

  /** The directly supplied processors of one kind, among the first `k`. */
  function SuppliedRefs(supplied: seq<SuppliedProcessor>, k: nat, registry: bool): (refs: seq<ProcRef>)
    requires k <= |supplied|
    ensures forall p :: p in refs <==> p.Supplied? && p.index < k && supplied[p.index].isRegistryProcessor == registry
    ensures NoDuplicates(refs)
  {
    if k == 0 then []
    else
      var refs := SuppliedRefs(supplied, k - 1, registry);
      if supplied[k - 1].isRegistryProcessor == registry then refs + [Supplied(k - 1)] else refs
  }

  /** The definition names are distinct, all in the catalog, and include every processed name. */
  ghost predicate NamesOk(st: State, env: Env) {
    && NoDuplicates(st.names)
    && (forall n :: n in st.names ==> n in env.catalog)
    && (forall n :: n in st.processed ==> n in st.names)
  }

  /** processedBeans holds exactly the bean registry processors collected, none twice. */
  ghost predicate Accounted(st: State) {
    && (forall n :: n in st.processed <==> BeanProc(n) in st.registryProcessors)
    && NoDuplicates(st.registryProcessors)
    && (forall p :: p in st.regular ==> p.Supplied?)
    && (forall p :: p in st.registryProcessors ==> p !in st.regular)
  }

  /** The registry part of the trace calls exactly the collected registry processors, in order. */
  ghost predicate TraceMatches(st: State) {
    && Targets(st.trace, true) == st.registryProcessors
    && Targets(st.trace, false) == []
    && (forall i :: 0 <= i < |st.trace| ==> st.trace[i].RegistryCallback?)
  }

  /** Every registry callback is a supplied or bean reference of the right kind for its phase. */
  predicate PhaseFits(e: Event, catalog: map<Name, Def>) {
    e.RegistryCallback? ==>
      && (e.phase == SuppliedPhase <==> e.target.Supplied?)
      && (e.target.BeanProc? ==> e.target.name in catalog && catalog[e.target.name].isRegistryProcessor)
      && (e.target.BeanProc? && e.phase == PriorityPhase ==> catalog[e.target.name].kind == PriorityOrderedKind)
      && (e.target.BeanProc? && e.phase == OrderedPhase ==> catalog[e.target.name].kind != PlainKind)
  }

  /** The stages follow each other, and each stage calls its members in comparator order. */
  ghost predicate Staged(t: seq<Event>, rank: Name -> int) {
    forall i, j :: 0 <= i < j < |t| && t[i].RegistryCallback? && t[j].RegistryCallback? ==>
      && PhaseLevel(t[i].phase) <= PhaseLevel(t[j].phase)
      && (t[i].phase == t[j].phase && t[i].target.BeanProc? && t[j].target.BeanProc? ==>
            rank(t[i].target.name) <= rank(t[j].target.name))
  }

  ghost predicate Below(t: seq<Event>, level: nat) {
    forall i :: 0 <= i < |t| && t[i].RegistryCallback? ==> PhaseLevel(t[i].phase) < level
  }

  ghost predicate PhasesOk(t: seq<Event>, env: Env) {
    (forall i :: 0 <= i < |t| ==> PhaseFits(t[i], env.catalog)) && Staged(t, RankOf(env))
  }

  /**
   * The loop over the supplied processors: a registry processor gets its
   * registry callback at once and joins the registry processors; any other
   * is kept as a regular processor.
   */
  function SuppliedStage(env: Env, names0: seq<Name>, k: nat): (st: State)
    requires k <= |env.supplied|
    requires NoDuplicates(names0) && forall n :: n in names0 ==> n in env.catalog
    ensures NamesOk(st, env) && names0 <= st.names
    ensures st.processed == {}
    ensures st.registryProcessors == SuppliedRefs(env.supplied, k, true)
    ensures st.regular == SuppliedRefs(env.supplied, k, false)
    ensures st.trace == RegistryEvents(st.registryProcessors, SuppliedPhase)
  {
    if k == 0 then
      State(names0, {}, [], [], [])
    else
      var st := SuppliedStage(env, names0, k - 1);
      var p := env.supplied[k - 1];
      if p.isRegistryProcessor then
        var ref := Supplied(k - 1);
        assert RegistryEvents(st.registryProcessors + [ref], SuppliedPhase)
               == st.trace + [RegistryCallback(ref, SuppliedPhase)];
        State(AddDefinitions(st.names, p.registers, env.catalog), st.processed,
              st.registryProcessors + [ref], st.regular,
              st.trace + [RegistryCallback(ref, SuppliedPhase)])
      else
        st.(regular := st.regular + [Supplied(k - 1)])
  }

  /** The processors one stage discovers, sorted. */
  function StageRefs(st: State, env: Env, sel: Selector): seq<ProcRef> {
    BeanRefs(SortNames(Pick(st.names, env.catalog, st.processed, true, sel), env))
  }

  lemma StageRefsFacts(st: State, env: Env, sel: Selector)
    requires NamesOk(st, env)
    ensures var refs := StageRefs(st, env, sel);
            && (forall p :: p in refs <==> (p.BeanProc? && p.name in st.names
                                           && Picked(env.catalog, st.processed, true, sel, p.name)))
            && NoDuplicates(refs)
            && (forall i, j :: 0 <= i < j < |refs| ==> RankOf(env)(refs[i].name) <= RankOf(env)(refs[j].name))
  {
    var sorted := SortNames(Pick(st.names, env.catalog, st.processed, true, sel), env);
    var refs := BeanRefs(sorted);
    forall p ensures p in refs <==> p.BeanProc? && p.name in sorted {
      if p in refs {
        var i :| 0 <= i < |refs| && refs[i] == p;
        assert sorted[i] == p.name;
      }
      if p.BeanProc? && p.name in sorted {
        var i :| 0 <= i < |sorted| && sorted[i] == p.name;
        assert refs[i] == p;
      }
    }
    forall i, j | 0 <= i < j < |refs| ensures refs[i] != refs[j] {
      assert sorted[i] != sorted[j];
    }
  }

  /**
   * One registry stage: discover the unprocessed registry processors the
   * selector takes, mark them processed, sort them, add them to the
   * registry processors and call their registry callbacks in that order.
   */
  function RegistryStage(st: State, env: Env, sel: Selector, phase: Phase): (r: State)
    requires NamesOk(st, env)
    ensures NamesOk(r, env)
    ensures st.names <= r.names && st.regular == r.regular
    ensures forall n :: n in r.processed <==> n in st.processed || (n in st.names && Picked(env.catalog, st.processed, true, sel, n))
    ensures r.registryProcessors == st.registryProcessors + StageRefs(st, env, sel)
    ensures r.trace == st.trace + RegistryEvents(StageRefs(st, env, sel), phase)
  {
    var found := Pick(st.names, env.catalog, st.processed, true, sel);
    var refs := StageRefs(st, env, sel);
    var names := RunRegistryCallbacks(st.names, refs, env);
    var processed := st.processed + Elements(found);
    assert forall n :: n in processed ==> n in st.names;
    assert forall n :: n in st.names ==> n in names by {
      assert st.names <= names;
      forall n | n in st.names ensures n in names {
        var i :| 0 <= i < |st.names| && st.names[i] == n;
        assert names[i] == n;
      }
    }
    State(names, processed, st.registryProcessors + refs, st.regular, st.trace + RegistryEvents(refs, phase))
  }

  lemma StageKeepsAccounted(st: State, env: Env, sel: Selector, phase: Phase)
    requires NamesOk(st, env) && Accounted(st)
    ensures Accounted(RegistryStage(st, env, sel, phase))
  {
    var r := RegistryStage(st, env, sel, phase);
    var refs := StageRefs(st, env, sel);
    StageRefsFacts(st, env, sel);
    assert forall n :: n in r.processed <==> n in st.processed || BeanProc(n) in refs;
    AccountedExtend(st, r, refs);
  }

  /** Collecting distinct, not yet processed bean processors and marking them processed keeps the account. */
  lemma AccountedExtend(st: State, r: State, refs: seq<ProcRef>)
    requires Accounted(st) && NoDuplicates(refs)
    requires forall p :: p in refs ==> p.BeanProc? && p.name !in st.processed
    requires r.registryProcessors == st.registryProcessors + refs && r.regular == st.regular
    requires forall n :: n in r.processed <==> n in st.processed || BeanProc(n) in refs
    ensures Accounted(r)
  {
    DistinctConcat(st.registryProcessors, refs);
  }

  lemma StageKeepsTrace(st: State, env: Env, sel: Selector, phase: Phase)
    requires NamesOk(st, env) && TraceMatches(st)
    ensures TraceMatches(RegistryStage(st, env, sel, phase))
  {
    var refs := StageRefs(st, env, sel);
    var es := RegistryEvents(refs, phase);
    TargetsAppend(st.trace, es, true);
    TargetsAppend(st.trace, es, false);
    TargetsOfRegistryEvents(refs, phase);
  }

  /** Appending one sorted stage of a later phase keeps the trace staged. */
  lemma StagedAppend(t: seq<Event>, refs: seq<ProcRef>, phase: Phase, rank: Name -> int)
    requires Staged(t, rank) && Below(t, PhaseLevel(phase))
    requires forall i, j :: 0 <= i < j < |refs| && refs[i].BeanProc? && refs[j].BeanProc? ==>
               rank(refs[i].name) <= rank(refs[j].name)
    ensures Staged(t + RegistryEvents(refs, phase), rank)
    ensures Below(t + RegistryEvents(refs, phase), PhaseLevel(phase) + 1)
  {
    var r := t + RegistryEvents(refs, phase);
    var k := |t|;
    forall i, j | 0 <= i < j < |r| && r[i].RegistryCallback? && r[j].RegistryCallback?
      ensures PhaseLevel(r[i].phase) <= PhaseLevel(r[j].phase)
      ensures r[i].phase == r[j].phase && r[i].target.BeanProc? && r[j].target.BeanProc? ==>
                rank(r[i].target.name) <= rank(r[j].target.name)
    {
      if j < k {
        assert r[i] == t[i] && r[j] == t[j];
      } else if i < k {
        assert r[i] == t[i];
      } else {
        assert r[i].target == refs[i - k] && r[j].target == refs[j - k];
      }
    }
  }

  /** Which selector each bean phase uses. */
  predicate SelectorOf(phase: Phase, sel: Selector) {
    match phase
    case SuppliedPhase => false
    case PriorityPhase => sel == OnlyPriorityOrdered
    case OrderedPhase => sel == OrderedOrPriority
    case RemainingPhase(_) => sel == AnyKind
  }

  lemma StageKeepsPhases(st: State, env: Env, sel: Selector, phase: Phase)
    requires NamesOk(st, env) && SelectorOf(phase, sel)
    requires PhasesOk(st.trace, env) && Below(st.trace, PhaseLevel(phase))
    ensures PhasesOk(RegistryStage(st, env, sel, phase).trace, env)
    ensures Below(RegistryStage(st, env, sel, phase).trace, PhaseLevel(phase) + 1)
  {
    var refs := StageRefs(st, env, sel);
    StageRefsFacts(st, env, sel);
    StagedAppend(st.trace, refs, phase, RankOf(env));
    var r := st.trace + RegistryEvents(refs, phase);
    forall i | 0 <= i < |r| ensures PhaseFits(r[i], env.catalog) {
      if i >= |st.trace| {
        assert refs[i - |st.trace|] in refs;
      }
    }
  }

  /** A pass that finds something brings the loop closer to its end. */
  lemma StageProgress(st: State, env: Env, pass: nat)
    requires NamesOk(st, env)
    requires |Pick(st.names, env.catalog, st.processed, true, AnyKind)| > 0
    ensures |env.catalog.Keys - RegistryStage(st, env, AnyKind, RemainingPhase(pass)).processed|
            < |env.catalog.Keys - st.processed|
  {
    var found := Pick(st.names, env.catalog, st.processed, true, AnyKind);
    var st' := RegistryStage(st, env, AnyKind, RemainingPhase(pass));
    assert found[0] in env.catalog.Keys - st.processed;
    assert found[0] !in env.catalog.Keys - st'.processed;
    assert env.catalog.Keys - st'.processed < env.catalog.Keys - st.processed;
  }

  /**
   * The rediscovery loop: repeat a stage over every unprocessed registry
   * processor until a pass finds none. It ends because every pass that
   * finds one marks at least one more catalog name processed.
   */
  function Reiterate(st: State, env: Env, pass: nat): (r: State)
    requires NamesOk(st, env)
    ensures NamesOk(r, env)
    ensures Pick(r.names, env.catalog, r.processed, true, AnyKind) == []
    decreases |env.catalog.Keys - st.processed|
  {
    var found := Pick(st.names, env.catalog, st.processed, true, AnyKind);
    if |found| == 0 then st
    else
      StageProgress(st, env, pass);
      Reiterate(RegistryStage(st, env, AnyKind, RemainingPhase(pass)), env, pass + 1)
  }

  /** The loop only ever appends to the trace and leaves the regular processors alone. */
  lemma {:induction false} ReiterateExtends(st: State, env: Env, pass: nat)
    requires NamesOk(st, env)
    ensures st.trace <= Reiterate(st, env, pass).trace
    ensures st.registryProcessors <= Reiterate(st, env, pass).registryProcessors
    ensures st.regular == Reiterate(st, env, pass).regular
    decreases |env.catalog.Keys - st.processed|
  {
    if |Pick(st.names, env.catalog, st.processed, true, AnyKind)| > 0 {
      StageProgress(st, env, pass);
      var st' := RegistryStage(st, env, AnyKind, RemainingPhase(pass));
      ReiterateExtends(st', env, pass + 1);
      var r := Reiterate(st', env, pass + 1);
      assert Reiterate(st, env, pass) == r;
      PrefixTransitive(st.trace, st'.trace, r.trace);
      PrefixTransitive(st.registryProcessors, st'.registryProcessors, r.registryProcessors);
    }
  }

  lemma PrefixTransitive<T>(a: seq<T>, b: seq<T>, c: seq<T>)
    requires a <= b && b <= c
    ensures a <= c
  {
    assert c[..|a|] == b[..|b|][..|a|];
  }

  lemma {:induction false} ReiterateKeepsAccounted(st: State, env: Env, pass: nat)
    requires NamesOk(st, env) && Accounted(st)
    ensures Accounted(Reiterate(st, env, pass))
    decreases |env.catalog.Keys - st.processed|
  {
    if |Pick(st.names, env.catalog, st.processed, true, AnyKind)| > 0 {
      StageKeepsAccounted(st, env, AnyKind, RemainingPhase(pass));
      StageProgress(st, env, pass);
      ReiterateKeepsAccounted(RegistryStage(st, env, AnyKind, RemainingPhase(pass)), env, pass + 1);
    }
  }

  lemma {:induction false} ReiterateKeepsTrace(st: State, env: Env, pass: nat)
    requires NamesOk(st, env) && TraceMatches(st)
    ensures TraceMatches(Reiterate(st, env, pass))
    decreases |env.catalog.Keys - st.processed|
  {
    if |Pick(st.names, env.catalog, st.processed, true, AnyKind)| > 0 {
      StageKeepsTrace(st, env, AnyKind, RemainingPhase(pass));
      StageProgress(st, env, pass);
      ReiterateKeepsTrace(RegistryStage(st, env, AnyKind, RemainingPhase(pass)), env, pass + 1);
    }
  }

  /** One pass of the loop, as far as the stage order is concerned. */
  lemma StepPhases(st: State, env: Env, pass: nat)
    requires NamesOk(st, env) && PhasesOk(st.trace, env) && Below(st.trace, 3 + pass)
    requires |Pick(st.names, env.catalog, st.processed, true, AnyKind)| > 0
    ensures var st' := RegistryStage(st, env, AnyKind, RemainingPhase(pass));
            && NamesOk(st', env) && PhasesOk(st'.trace, env) && Below(st'.trace, 3 + (pass + 1))
            && |env.catalog.Keys - st'.processed| < |env.catalog.Keys - st.processed|
            && Reiterate(st, env, pass) == Reiterate(st', env, pass + 1)
  {
    StageKeepsPhases(st, env, AnyKind, RemainingPhase(pass));
    StageProgress(st, env, pass);
  }

  lemma {:induction false} ReiterateKeepsPhases(st: State, env: Env, pass: nat)
    requires NamesOk(st, env) && PhasesOk(st.trace, env) && Below(st.trace, 3 + pass)
    ensures PhasesOk(Reiterate(st, env, pass).trace, env)
    decreases |env.catalog.Keys - st.processed|
  {
    if |Pick(st.names, env.catalog, st.processed, true, AnyKind)| > 0 {
      StepPhases(st, env, pass);
      ReiterateKeepsPhases(RegistryStage(st, env, AnyKind, RemainingPhase(pass)), env, pass + 1);
    }
  }

  /** Appending calls other than registry callbacks keeps the registry stages as they were. */
  lemma StagedAppendOther(t: seq<Event>, u: seq<Event>, env: Env)
    requires PhasesOk(t, env)
    requires forall i :: 0 <= i < |u| ==> !u[i].RegistryCallback?
    ensures PhasesOk(t + u, env)
  {
    var r := t + u;
    forall i | 0 <= i < |r| ensures PhaseFits(r[i], env.catalog) {
      if i < |t| {
        assert r[i] == t[i];
      } else {
        assert r[i] == u[i - |t|];
      }
    }
    forall i, j | 0 <= i < j < |r| && r[i].RegistryCallback? && r[j].RegistryCallback?
      ensures PhaseLevel(r[i].phase) <= PhaseLevel(r[j].phase)
      ensures r[i].phase == r[j].phase && r[i].target.BeanProc? && r[j].target.BeanProc? ==>
                RankOf(env)(r[i].target.name) <= RankOf(env)(r[j].target.name)
    {
      if j < |t| {
        assert r[i] == t[i] && r[j] == t[j];
      }
    }
  }

  // ---------------------------------------------------------------------
  // invokeBeanFactoryPostProcessors

  /** The bean factory and its directly supplied processors are well formed. */
  predicate WellFormed(env: Env, names0: seq<Name>) {
    NoDuplicates(names0) && forall n :: n in names0 ==> n in env.catalog
  }

  /** The registry part: supplied processors, then the PriorityOrdered, Ordered and remaining stages. */
  function RegistryPart(env: Env, names0: seq<Name>): (st: State)
    requires WellFormed(env, names0)
    ensures NamesOk(st, env)
    ensures Pick(st.names, env.catalog, st.processed, true, AnyKind) == []
  {
    var st0 := SuppliedStage(env, names0, |env.supplied|);
    var st1 := RegistryStage(st0, env, OnlyPriorityOrdered, PriorityPhase);
    var st2 := RegistryStage(st1, env, OrderedOrPriority, OrderedPhase);
    Reiterate(st2, env, 0)
  }

  lemma RegistryPartShape(env: Env, names0: seq<Name>)
    requires WellFormed(env, names0)
    ensures RegistryPart(env, names0).regular == SuppliedRefs(env.supplied, |env.supplied|, false)
    ensures RegistryEvents(SuppliedRefs(env.supplied, |env.supplied|, true), SuppliedPhase)
            <= RegistryPart(env, names0).trace
    ensures SuppliedRefs(env.supplied, |env.supplied|, true) <= RegistryPart(env, names0).registryProcessors
  {
    var st0 := SuppliedStage(env, names0, |env.supplied|);
    var st1 := RegistryStage(st0, env, OnlyPriorityOrdered, PriorityPhase);
    var st2 := RegistryStage(st1, env, OrderedOrPriority, OrderedPhase);
    ReiterateExtends(st2, env, 0);
  }

  lemma RegistryPartAccounted(env: Env, names0: seq<Name>)
    requires WellFormed(env, names0)
    ensures Accounted(RegistryPart(env, names0))
  {
    var st0 := SuppliedStage(env, names0, |env.supplied|);
    var st1 := RegistryStage(st0, env, OnlyPriorityOrdered, PriorityPhase);
    var st2 := RegistryStage(st1, env, OrderedOrPriority, OrderedPhase);
    StageKeepsAccounted(st0, env, OnlyPriorityOrdered, PriorityPhase);
    StageKeepsAccounted(st1, env, OrderedOrPriority, OrderedPhase);
    ReiterateKeepsAccounted(st2, env, 0);
  }

  lemma RegistryPartTrace(env: Env, names0: seq<Name>)
    requires WellFormed(env, names0)
    ensures TraceMatches(RegistryPart(env, names0))
  {
    var st0 := SuppliedStage(env, names0, |env.supplied|);
    var st1 := RegistryStage(st0, env, OnlyPriorityOrdered, PriorityPhase);
    var st2 := RegistryStage(st1, env, OrderedOrPriority, OrderedPhase);
    TargetsOfRegistryEvents(st0.registryProcessors, SuppliedPhase);
    StageKeepsTrace(st0, env, OnlyPriorityOrdered, PriorityPhase);
    StageKeepsTrace(st1, env, OrderedOrPriority, OrderedPhase);
    ReiterateKeepsTrace(st2, env, 0);
  }

  lemma RegistryPartPhases(env: Env, names0: seq<Name>)
    requires WellFormed(env, names0)
    ensures PhasesOk(RegistryPart(env, names0).trace, env)
  {
    var st0 := SuppliedStage(env, names0, |env.supplied|);
    var st1 := RegistryStage(st0, env, OnlyPriorityOrdered, PriorityPhase);
    var st2 := RegistryStage(st1, env, OrderedOrPriority, OrderedPhase);
    forall i | 0 <= i < |st0.trace| ensures st0.trace[i].target.Supplied? {
      assert st0.trace[i].target == st0.registryProcessors[i];
      assert st0.registryProcessors[i] in st0.registryProcessors;
    }
    StageKeepsPhases(st0, env, OnlyPriorityOrdered, PriorityPhase);
    StageKeepsPhases(st1, env, OrderedOrPriority, OrderedPhase);
    ReiterateKeepsPhases(st2, env, 0);
  }

  /**
   * The factory-processor stage: every post-processor bean not processed
   * in the registry part, PriorityOrdered ones sorted, then Ordered ones
   * sorted, then the rest in definition order.
   */
  function FactoryStage(names: seq<Name>, processed: set<Name>, env: Env): seq<ProcRef> {
    BeanRefs(SortNames(Pick(names, env.catalog, processed, false, OnlyPriorityOrdered), env))
    + BeanRefs(SortNames(Pick(names, env.catalog, processed, false, OnlyOrdered), env))
    + BeanRefs(Pick(names, env.catalog, processed, false, OnlyPlain))
  }

  function AllSupplied(k: nat): (refs: seq<ProcRef>)
    ensures |refs| == k && forall i :: 0 <= i < k ==> refs[i] == Supplied(i)
  {
    seq(k, i requires 0 <= i < k => Supplied(i))
  }

  datatype Outcome = Outcome(trace: seq<Event>, names: seq<Name>, processed: set<Name>)

  /**
   * The calls after the registry part `t`: factory callbacks for `a`, `b`
   * and `c` in turn, then clearing the merged definitions.
   */
  function Pipeline(t: seq<Event>, a: seq<ProcRef>, b: seq<ProcRef>, c: seq<ProcRef>): seq<Event> {
    t + FactoryEvents(a) + FactoryEvents(b) + FactoryEvents(c) + [ClearMetadataCache]
  }

  /** After the registry part, the pipeline makes only factory callbacks and ends by clearing. */
  lemma PipelineShape(t: seq<Event>, a: seq<ProcRef>, b: seq<ProcRef>, c: seq<ProcRef>)
    ensures var r := Pipeline(t, a, b, c);
            && |r| > |t| && r[..|t|] == t && r[|r| - 1] == ClearMetadataCache
            && forall i :: |t| <= i < |r| ==> !r[i].RegistryCallback?
  {
    var f := FactoryEvents(a) + FactoryEvents(b) + FactoryEvents(c);
    forall i | 0 <= i < |f| ensures f[i].FactoryCallback? {
      if i < |a| {
        assert f[i] == FactoryEvents(a)[i];
      } else if i < |a| + |b| {
        assert f[i] == FactoryEvents(b)[i - |a|];
      } else {
        assert f[i] == FactoryEvents(c)[i - |a| - |b|];
      }
    }
    var r := t + (f + [ClearMetadataCache]);
    assert forall i :: |t| <= i < |r| ==> r[i] == (f + [ClearMetadataCache])[i - |t|];
    assert Pipeline(t, a, b, c) == r;
  }

  /**
   * invokeBeanFactoryPostProcessors. For a factory that is a definition
   * registry, the registry part runs first; its registry processors get
   * their factory callbacks in the order they were collected, then the
   * regular supplied ones; otherwise only the supplied processors' factory
   * callbacks run. Then the factory-processor stage, and the merged
   * definitions are cleared last.
   */
  function InvokeBeanFactoryPostProcessors(env: Env, isRegistry: bool, names0: seq<Name>): (o: Outcome)
    requires WellFormed(env, names0)
    ensures |o.trace| > 0 && o.trace[|o.trace| - 1] == ClearMetadataCache
    ensures !isRegistry ==> forall i :: 0 <= i < |o.trace| ==> !o.trace[i].RegistryCallback?
  {
    if isRegistry then
      var st := RegistryPart(env, names0);
      PipelineShape(st.trace, st.registryProcessors, st.regular, FactoryStage(st.names, st.processed, env));
      Outcome(Pipeline(st.trace, st.registryProcessors, st.regular, FactoryStage(st.names, st.processed, env)),
              st.names, st.processed)
    else
      PipelineShape([], AllSupplied(|env.supplied|), [], FactoryStage(names0, {}, env));
      Outcome(Pipeline([], AllSupplied(|env.supplied|), [], FactoryStage(names0, {}, env)), names0, {})
  }

  predicate NoClear(t: seq<Event>) {
    forall i :: 0 <= i < |t| ==> t[i] != ClearMetadataCache
  }

  lemma NoClearAppend(a: seq<Event>, b: seq<Event>)
    requires NoClear(a) && NoClear(b)
    ensures NoClear(a + b)
  {
    forall i | 0 <= i < |a + b| ensures (a + b)[i] != ClearMetadataCache {
      if i < |a| {
        assert (a + b)[i] == a[i];
      } else {
        assert (a + b)[i] == b[i - |a|];
      }
    }
  }

  /** No call other than the last clears the merged definitions. */
  predicate ClearedLast(t: seq<Event>) {
    |t| > 0 && t[|t| - 1] == ClearMetadataCache && NoClear(t[..|t| - 1])
  }

  lemma PipelineClearedLast(t: seq<Event>, a: seq<ProcRef>, b: seq<ProcRef>, c: seq<ProcRef>)
    requires NoClear(t)
    ensures ClearedLast(Pipeline(t, a, b, c))
  {
    var f1 := FactoryEvents(a);
    var f2 := FactoryEvents(b);
    var f3 := FactoryEvents(c);
    NoClearAppend(t, f1);
    NoClearAppend(t + f1, f2);
    NoClearAppend(t + f1 + f2, f3);
    assert Pipeline(t, a, b, c)[..|Pipeline(t, a, b, c)| - 1] == t + f1 + f2 + f3;
  }

  /** The merged bean definitions are cleared once, after every callback. */
  lemma MetadataClearedLast(env: Env, isRegistry: bool, names0: seq<Name>)
    requires WellFormed(env, names0)
    ensures ClearedLast(InvokeBeanFactoryPostProcessors(env, isRegistry, names0).trace)
  {
    if isRegistry {
      var st := RegistryPart(env, names0);
      RegistryPartTrace(env, names0);
      PipelineClearedLast(st.trace, st.registryProcessors, st.regular, FactoryStage(st.names, st.processed, env));
    } else {
      PipelineClearedLast([], AllSupplied(|env.supplied|), [], FactoryStage(names0, {}, env));
    }
  }

  lemma DistinctConcat<T>(a: seq<T>, b: seq<T>)
    requires NoDuplicates(a) && NoDuplicates(b)
    requires forall x :: x in a ==> x !in b
    ensures NoDuplicates(a + b)
  {
    forall i, j | 0 <= i < j < |a + b| ensures (a + b)[i] != (a + b)[j] {
      if j < |a| {
        assert (a + b)[i] == a[i] && (a + b)[j] == a[j];
      } else if i < |a| {
        assert (a + b)[i] == a[i] && (a + b)[j] == b[j - |a|];
        assert a[i] in a && b[j - |a|] in b;
      } else {
        assert (a + b)[i] == b[i - |a|] && (a + b)[j] == b[j - |a|];
      }
    }
  }

  lemma TargetsOfPipeline(t: seq<Event>, a: seq<ProcRef>, b: seq<ProcRef>, c: seq<ProcRef>)
    ensures Targets(Pipeline(t, a, b, c), true) == Targets(t, true)
    ensures Targets(Pipeline(t, a, b, c), false) == Targets(t, false) + a + b + c
    ensures Targets(t, false) == [] ==> Targets(Pipeline(t, a, b, c), false) == a + b + c
  {
    assert [] + a + b + c == a + b + c;
    var f1 := FactoryEvents(a);
    var f2 := FactoryEvents(b);
    var f3 := FactoryEvents(c);
    var e := [ClearMetadataCache];
    assert Targets(e, true) == [] && Targets(e, false) == [] by {
      assert e[..0] == [];
    }
    TargetsOfFactoryEvents(a);
    TargetsOfFactoryEvents(b);
    TargetsOfFactoryEvents(c);
    TargetsAppend(t + f1 + f2 + f3, e, true);
    TargetsAppend(t + f1 + f2, f3, true);
    TargetsAppend(t + f1, f2, true);
    TargetsAppend(t, f1, true);
    TargetsAppend(t + f1 + f2 + f3, e, false);
    TargetsAppend(t + f1 + f2, f3, false);
    TargetsAppend(t + f1, f2, false);
    TargetsAppend(t, f1, false);
  }

  /** The pipeline after the registry part: its targets are the registry processors, then the factory ones. */
  lemma RegistryPipelineTargets(st: State, fs: seq<ProcRef>)
    requires TraceMatches(st)
    ensures Targets(Pipeline(st.trace, st.registryProcessors, st.regular, fs), true) == st.registryProcessors
    ensures Targets(Pipeline(st.trace, st.registryProcessors, st.regular, fs), false)
            == st.registryProcessors + st.regular + fs
  {
    TargetsOfPipeline(st.trace, st.registryProcessors, st.regular, fs);
  }

  /** The pipeline without a registry part: no registry callbacks, then the factory ones. */
  lemma PlainPipelineTargets(all: seq<ProcRef>, fs: seq<ProcRef>)
    ensures Targets(Pipeline([], all, [], fs), true) == []
    ensures Targets(Pipeline([], all, [], fs), false) == all + fs
  {
    TargetsOfPipeline([], all, [], fs);
    assert Targets([], true) == [] && Targets([], false) == [];
    assert all + [] == all;
  }

  lemma OutcomeTargets(env: Env, isRegistry: bool, names0: seq<Name>)
    requires WellFormed(env, names0)
    ensures var o := InvokeBeanFactoryPostProcessors(env, isRegistry, names0);
            var st := RegistryPart(env, names0);
            && (isRegistry ==>
                  && Targets(o.trace, true) == st.registryProcessors
                  && Targets(o.trace, false)
                     == st.registryProcessors + st.regular + FactoryStage(st.names, st.processed, env))
            && (!isRegistry ==>
                  && Targets(o.trace, true) == []
                  && Targets(o.trace, false) == AllSupplied(|env.supplied|) + FactoryStage(names0, {}, env))
  {
    if isRegistry {
      var st := RegistryPart(env, names0);
      RegistryPartTrace(env, names0);
      RegistryPipelineTargets(st, FactoryStage(st.names, st.processed, env));
    } else {
      PlainPipelineTargets(AllSupplied(|env.supplied|), FactoryStage(names0, {}, env));
    }
  }

  /**
   * The directly supplied registry processors get their registry callbacks
   * first, immediately and in the order supplied.
   */
  lemma SuppliedRegistryProcessorsFirst(env: Env, names0: seq<Name>)
    requires WellFormed(env, names0)
    ensures RegistryEvents(SuppliedRefs(env.supplied, |env.supplied|, true), SuppliedPhase)
            <= InvokeBeanFactoryPostProcessors(env, true, names0).trace
  {
    RegistryPartShape(env, names0);
  }

  /**
   * Every registry callback is for a distinct processor (processedBeans
   * keeps any bean from a second stage); the beans called are exactly the
   * processed ones; and without a definition registry there is none.
   */
  lemma RegistryCallbacksOnce(env: Env, isRegistry: bool, names0: seq<Name>)
    requires WellFormed(env, names0)
    ensures var o := InvokeBeanFactoryPostProcessors(env, isRegistry, names0);
            && NoDuplicates(Targets(o.trace, true))
            && (forall n :: BeanProc(n) in Targets(o.trace, true) <==> n in o.processed)
            && (!isRegistry ==> Targets(o.trace, true) == [])
  {
    OutcomeTargets(env, isRegistry, names0);
    if isRegistry {
      RegistryPartAccounted(env, names0);
    }
  }

  /**
   * The rediscovery loop stops only when no registry processor definition
   * is left unprocessed, so every one defined by the end, including those
   * registered by other registry processors, has had its registry callback.
   */
  lemma EveryRegistryProcessorCalled(env: Env, names0: seq<Name>, n: Name)
    requires WellFormed(env, names0)
    ensures var o := InvokeBeanFactoryPostProcessors(env, true, names0);
            n in o.names && n in env.catalog && env.catalog[n].isRegistryProcessor ==>
              BeanProc(n) in Targets(o.trace, true)
  {
    var st := RegistryPart(env, names0);
    RegistryCallbacksOnce(env, true, names0);
    assert n in st.names && n in env.catalog && env.catalog[n].isRegistryProcessor && n !in st.processed
           ==> n in Pick(st.names, env.catalog, st.processed, true, AnyKind);
  }

  /**
   * The registry callbacks run in stages: supplied, PriorityOrdered,
   * Ordered (which also takes PriorityOrdered ones discovered late), then
   * the rediscovery passes; inside each stage in comparator order.
   */
  lemma RegistryStagesInOrder(env: Env, names0: seq<Name>)
    requires WellFormed(env, names0)
    ensures var t := InvokeBeanFactoryPostProcessors(env, true, names0).trace;
            && Staged(t, RankOf(env))
            && forall i :: 0 <= i < |t| ==> PhaseFits(t[i], env.catalog)
  {
    var st := RegistryPart(env, names0);
    RegistryPartPhases(env, names0);
    PipelineKeepsPhases(st.trace, st.registryProcessors, st.regular, FactoryStage(st.names, st.processed, env), env);
  }

  lemma PipelineKeepsPhases(t: seq<Event>, a: seq<ProcRef>, b: seq<ProcRef>, c: seq<ProcRef>, env: Env)
    requires PhasesOk(t, env)
    ensures PhasesOk(Pipeline(t, a, b, c), env)
  {
    var u := FactoryEvents(a) + FactoryEvents(b) + FactoryEvents(c) + [ClearMetadataCache];
    forall i | 0 <= i < |u| ensures !u[i].RegistryCallback? {
    }
    StagedAppendOther(t, u, env);
    assert Pipeline(t, a, b, c) == t + u;
  }

  /** Where each position of three concatenated groups of bean references comes from. */
  lemma ThreeGroups(a: seq<Name>, b: seq<Name>, c: seq<Name>)
    ensures var fs := BeanRefs(a) + BeanRefs(b) + BeanRefs(c);
            && |fs| == |a| + |b| + |c|
            && (forall i :: 0 <= i < |a| ==> fs[i] == BeanProc(a[i]))
            && (forall i :: 0 <= i < |b| ==> fs[|a| + i] == BeanProc(b[i]))
            && (forall i :: 0 <= i < |c| ==> fs[|a| + |b| + i] == BeanProc(c[i]))
  {
  }

  /**
   * The three groups of the factory-processor stage: the unprocessed
   * PriorityOrdered, Ordered and other post-processor beans, none twice,
   * the first two sorted by the comparator in use.
   */
  ghost predicate GroupsOk(a: seq<Name>, b: seq<Name>, c: seq<Name>, names: seq<Name>, processed: set<Name>, env: Env) {
    && NoDuplicates(a) && NoDuplicates(b) && NoDuplicates(c)
    && (forall n :: n in a <==> n in names && Picked(env.catalog, processed, false, OnlyPriorityOrdered, n))
    && (forall n :: n in b <==> n in names && Picked(env.catalog, processed, false, OnlyOrdered, n))
    && (forall n :: n in c <==> n in names && Picked(env.catalog, processed, false, OnlyPlain, n))
    && OrderSort.SortedByRank(a, RankOf(env)) && OrderSort.SortedByRank(b, RankOf(env))
  }

  /** The groups of the factory-processor stage, by kind. */
  lemma FactoryGroups(names: seq<Name>, processed: set<Name>, env: Env)
    requires NoDuplicates(names)
    ensures var a := SortNames(Pick(names, env.catalog, processed, false, OnlyPriorityOrdered), env);
            var b := SortNames(Pick(names, env.catalog, processed, false, OnlyOrdered), env);
            var c := Pick(names, env.catalog, processed, false, OnlyPlain);
            && FactoryStage(names, processed, env) == BeanRefs(a) + BeanRefs(b) + BeanRefs(c)
            && GroupsOk(a, b, c, names, processed, env)
  {
  }

  /** A factory-processor stage calls each unprocessed post-processor bean, once, and nothing else. */
  ghost predicate StageMembers(fs: seq<ProcRef>, names: seq<Name>, processed: set<Name>, catalog: map<Name, Def>) {
    && (forall p :: p in fs <==> (p.BeanProc? && p.name in names && p.name in catalog && p.name !in processed))
    && NoDuplicates(fs)
  }

  /** References to beans named by a sequence: the names, in order, and distinct if they are. */
  lemma BeanRefsFacts(ns: seq<Name>)
    ensures forall p: ProcRef :: p in BeanRefs(ns) <==> p.BeanProc? && p.name in ns
    ensures NoDuplicates(ns) ==> NoDuplicates(BeanRefs(ns))
  {
    forall p: ProcRef | p.BeanProc? && p.name in ns ensures p in BeanRefs(ns) {
      var i :| 0 <= i < |ns| && ns[i] == p.name;
      assert BeanRefs(ns)[i] == p;
    }
  }

  lemma BeanRefsConcat(a: seq<Name>, b: seq<Name>, c: seq<Name>)
    ensures BeanRefs(a) + BeanRefs(b) + BeanRefs(c) == BeanRefs(a + b + c)
  {
  }

  /** The kind level of a post-processor bean; unknown names count as plain. */
  function LevelOf(catalog: map<Name, Def>): Name -> int {
    n => if n in catalog then KindLevel(catalog[n].kind) else 2
  }

  /**
   * Three groups of levels 0, 1 and 2, the first two sorted by rank:
   * their concatenation is ordered by level, and by rank within the first two levels.
   */
  lemma LeveledConcat<T>(a: seq<T>, b: seq<T>, c: seq<T>, level: T -> int, rank: T -> int)
    requires forall x :: x in a ==> level(x) == 0
    requires forall x :: x in b ==> level(x) == 1
    requires forall x :: x in c ==> level(x) == 2
    requires OrderSort.SortedByRank(a, rank) && OrderSort.SortedByRank(b, rank)
    ensures var s := a + b + c;
            && (forall i, j :: 0 <= i < j < |s| ==> level(s[i]) <= level(s[j]))
            && (forall i, j :: 0 <= i < j < |s| && level(s[i]) == level(s[j]) && level(s[i]) < 2 ==>
                  rank(s[i]) <= rank(s[j]))
  {
    var s := a + b + c;
    forall i | 0 <= i < |s|
      ensures i < |a| ==> s[i] == a[i] && level(s[i]) == 0
      ensures |a| <= i < |a| + |b| ==> s[i] == b[i - |a|] && level(s[i]) == 1
      ensures |a| + |b| <= i ==> level(s[i]) == 2
    {
      if i < |a| {
        assert a[i] in a;
      } else if i < |a| + |b| {
        assert b[i - |a|] in b;
      } else {
        assert s[i] == c[i - |a| - |b|];
        assert c[i - |a| - |b|] in c;
      }
    }
  }

  /** Three disjoint groups of distinct names become distinct bean references, and no others. */
  lemma GroupRefs(a: seq<Name>, b: seq<Name>, c: seq<Name>)
    requires NoDuplicates(a) && NoDuplicates(b) && NoDuplicates(c)
    requires forall n :: n in a ==> n !in b && n !in c
    requires forall n :: n in b ==> n !in c
    ensures var fs := BeanRefs(a) + BeanRefs(b) + BeanRefs(c);
            && (forall p: ProcRef :: p in fs <==> p.BeanProc? && (p.name in a || p.name in b || p.name in c))
            && NoDuplicates(fs)
  {
    BeanRefsFacts(a);
    BeanRefsFacts(b);
    BeanRefsFacts(c);
    DistinctConcat(BeanRefs(a), BeanRefs(b));
    DistinctConcat(BeanRefs(a) + BeanRefs(b), BeanRefs(c));
  }

  lemma GroupsMembers(a: seq<Name>, b: seq<Name>, c: seq<Name>, names: seq<Name>, processed: set<Name>, env: Env)
    requires GroupsOk(a, b, c, names, processed, env)
    ensures StageMembers(BeanRefs(a) + BeanRefs(b) + BeanRefs(c), names, processed, env.catalog)
  {
    GroupRefs(a, b, c);
  }

  /** The factory-processor stage calls each unprocessed post-processor bean, once. */
  lemma FactoryStageMembers(names: seq<Name>, processed: set<Name>, env: Env)
    requires NoDuplicates(names)
    ensures StageMembers(FactoryStage(names, processed, env), names, processed, env.catalog)
  {
    var a := SortNames(Pick(names, env.catalog, processed, false, OnlyPriorityOrdered), env);
    var b := SortNames(Pick(names, env.catalog, processed, false, OnlyOrdered), env);
    var c := Pick(names, env.catalog, processed, false, OnlyPlain);
    FactoryGroups(names, processed, env);
    GroupsMembers(a, b, c, names, processed, env);
  }

  /**
   * PriorityOrdered beans come first, then Ordered ones, then the rest,
   * and the first two groups are in comparator order.
   */
  ghost predicate StageOrdered(fs: seq<ProcRef>, env: Env) {
    && (forall i :: 0 <= i < |fs| ==> fs[i].BeanProc? && fs[i].name in env.catalog)
    && (forall i, j :: 0 <= i < j < |fs| ==>
          LevelOf(env.catalog)(fs[i].name) <= LevelOf(env.catalog)(fs[j].name))
    && (forall i, j :: (0 <= i < j < |fs| && LevelOf(env.catalog)(fs[i].name) == LevelOf(env.catalog)(fs[j].name)
                        && env.catalog[fs[i].name].kind != PlainKind) ==>
          RankOf(env)(fs[i].name) <= RankOf(env)(fs[j].name))
  }

  lemma GroupsOrder(a: seq<Name>, b: seq<Name>, c: seq<Name>, names: seq<Name>, processed: set<Name>, env: Env)
    requires GroupsOk(a, b, c, names, processed, env)
    ensures StageOrdered(BeanRefs(a) + BeanRefs(b) + BeanRefs(c), env)
  {
    BeanRefsConcat(a, b, c);
    LeveledConcat(a, b, c, LevelOf(env.catalog), RankOf(env));
    var s := a + b + c;
    forall i | 0 <= i < |s| ensures s[i] in env.catalog {
      assert s[i] in a || s[i] in b || s[i] in c;
    }
  }

  /** The factory-processor stage calls its beans by kind, and by the comparator within a kind. */
  lemma FactoryStageOrder(names: seq<Name>, processed: set<Name>, env: Env)
    requires NoDuplicates(names)
    ensures StageOrdered(FactoryStage(names, processed, env), env)
  {
    var a := SortNames(Pick(names, env.catalog, processed, false, OnlyPriorityOrdered), env);
    var b := SortNames(Pick(names, env.catalog, processed, false, OnlyOrdered), env);
    var c := Pick(names, env.catalog, processed, false, OnlyPlain);
    FactoryGroups(names, processed, env);
    GroupsOrder(a, b, c, names, processed, env);
  }

  /** What the factory callbacks after a registry part reach: each processor and bean once. */
  lemma RegistryCallbackTargets(st: State, env: Env, fs: seq<ProcRef>)
    requires NamesOk(st, env) && Accounted(st)
    requires StageMembers(fs, st.names, st.processed, env.catalog)
    requires st.regular == SuppliedRefs(env.supplied, |env.supplied|, false)
    requires SuppliedRefs(env.supplied, |env.supplied|, true) <= st.registryProcessors
    ensures var t := st.registryProcessors + st.regular + fs;
            && NoDuplicates(t)
            && (forall n :: BeanProc(n) in t <==> n in st.names)
            && (forall i :: 0 <= i < |env.supplied| ==> Supplied(i) in t)
  {
    DistinctConcat(st.registryProcessors, st.regular);
    DistinctConcat(st.registryProcessors + st.regular, fs);
    forall i | 0 <= i < |env.supplied| ensures Supplied(i) in st.registryProcessors + st.regular {
      if env.supplied[i].isRegistryProcessor {
        assert Supplied(i) in SuppliedRefs(env.supplied, |env.supplied|, true);
        assert Supplied(i) in st.registryProcessors;
      } else {
        assert Supplied(i) in st.regular;
      }
    }
  }

  /** What the factory callbacks without a registry part reach: each processor and bean once. */
  lemma PlainCallbackTargets(k: nat, fs: seq<ProcRef>, names: seq<Name>, catalog: map<Name, Def>)
    requires StageMembers(fs, names, {}, catalog)
    requires forall n :: n in names ==> n in catalog
    ensures var t := AllSupplied(k) + fs;
            && NoDuplicates(t)
            && (forall n :: BeanProc(n) in t <==> n in names)
            && (forall i :: 0 <= i < k ==> Supplied(i) in t)
  {
    var all := AllSupplied(k);
    assert forall p :: p in all ==> p.Supplied? by {
      forall p | p in all ensures p.Supplied? {
        var i :| 0 <= i < |all| && all[i] == p;
      }
    }
    assert NoDuplicates(all);
    DistinctConcat(all, fs);
    assert forall i :: 0 <= i < k ==> all[i] in all;
  }

  /**
   * Every post-processor bean defined by the end gets exactly one factory
   * callback, and so does every supplied processor: registry processors in
   * the order of their registry callbacks, then the regular supplied
   * ones, then the beans of the factory-processor stage.
   */
  lemma FactoryCallbacksOnce(env: Env, isRegistry: bool, names0: seq<Name>)
    requires WellFormed(env, names0)
    ensures var o := InvokeBeanFactoryPostProcessors(env, isRegistry, names0);
            && NoDuplicates(Targets(o.trace, false))
            && (forall n :: BeanProc(n) in Targets(o.trace, false) <==> n in o.names)
            && (forall i :: 0 <= i < |env.supplied| ==> Supplied(i) in Targets(o.trace, false))
            && (isRegistry ==>
                  Targets(o.trace, false)
                  == Targets(o.trace, true) + SuppliedRefs(env.supplied, |env.supplied|, false)
                     + FactoryStage(o.names, o.processed, env))
  {
    OutcomeTargets(env, isRegistry, names0);
    if isRegistry {
      var st := RegistryPart(env, names0);
      RegistryPartAccounted(env, names0);
      RegistryPartShape(env, names0);
      FactoryStageMembers(st.names, st.processed, env);
      RegistryCallbackTargets(st, env, FactoryStage(st.names, st.processed, env));
    } else {
      FactoryStageMembers(names0, {}, env);
      PlainCallbackTargets(|env.supplied|, FactoryStage(names0, {}, env), names0, env.catalog);
    }
  }

  // ---------------------------------------------------------------------
  // Exceptions thrown by the callbacks

  /**
   * Which calls throw: `throws` says which callbacks fail. Clearing the
   * merged definitions never throws.
   */
  function CallbackThrows(throws: Event -> Option<Error>): Event -> Option<Error> {
    (e: Event) => if e.ClearMetadataCache? then None else throws(e)
  }

  /** The calls up to and including the first one that throws, and that exception. */
  function CutAtFailure(t: seq<Event>, throws: Event -> Option<Error>): (r: (seq<Event>, Option<Error>))
    ensures r.1.None? <==> forall i :: 0 <= i < |t| ==> throws(t[i]).None?
    ensures r.1.None? ==> r.0 == t
    ensures r.1.Some? ==>
              exists k :: 0 <= k < |t| && r.0 == t[..k + 1] && throws(t[k]) == r.1
                          && forall i :: 0 <= i < k ==> throws(t[i]).None?
    decreases |t|
  {
    if |t| == 0 then ([], None)
    else if throws(t[0]).Some? then
      assert t[..1] == [t[0]];
      ([t[0]], throws(t[0]))
    else
      var rest := CutAtFailure(t[1..], throws);
      assert forall i :: 0 < i < |t| ==> t[i] == t[1..][i - 1];
      if rest.1.Some? then
        var k :| 0 <= k < |t[1..]| && rest.0 == t[1..][..k + 1] && throws(t[1..][k]) == rest.1
                 && forall i :: 0 <= i < k ==> throws(t[1..][i]).None?;
        assert [t[0]] + rest.0 == t[..k + 2];
        ([t[0]] + rest.0, rest.1)
      else
        assert [t[0]] + t[1..] == t;
        ([t[0]] + rest.0, rest.1)
  }

  /**
   * Cutting a run that clears the merged definitions last: a cut at a
   * failing callback stops before the clearing, and a run with no failure
   * still ends with it.
   */
  lemma CutBeforeClear(t: seq<Event>, throws: Event -> Option<Error>)
    requires ClearedLast(t)
    ensures var c := CutAtFailure(t, CallbackThrows(throws));
            && (c.1.Some? ==> |c.0| > 0 && !c.0[|c.0| - 1].ClearMetadataCache? && ClearMetadataCache !in c.0)
            && (c.1.None? ==> ClearedLast(c.0))
  {
    var c := CutAtFailure(t, CallbackThrows(throws));
    if c.1.Some? {
      var k :| 0 <= k < |t| && c.0 == t[..k + 1] && CallbackThrows(throws)(t[k]) == c.1
               && forall i :: 0 <= i < k ==> CallbackThrows(throws)(t[i]).None?;
      assert k < |t| - 1;
      forall i | 0 <= i < |c.0| ensures c.0[i] != ClearMetadataCache {
        assert c.0[i] == t[..|t| - 1][i];
      }
    }
  }

  /** A run that may stop with an exception: the calls made, and the exception that ended it. */
  datatype FailingOutcome = FailingOutcome(trace: seq<Event>, error: Option<Error>)

  /**
   * invokeBeanFactoryPostProcessors when callbacks may throw. An exception
   * from postProcessBeanDefinitionRegistry or postProcessBeanFactory
   * propagates at once: the calls before it were made and nothing after it.
   */
  function InvokeWithCallbackFailures(env: Env, isRegistry: bool, names0: seq<Name>,
                                      throws: Event -> Option<Error>): (o: FailingOutcome)
    requires WellFormed(env, names0)
    ensures var full := InvokeBeanFactoryPostProcessors(env, isRegistry, names0).trace;
            && (o.error.None? <==> forall i :: 0 <= i < |full| ==> CallbackThrows(throws)(full[i]).None?)
            && (o.error.None? ==> o.trace == full)
            && (o.error.Some? ==>
                  exists k :: 0 <= k < |full| && o.trace == full[..k + 1]
                              && CallbackThrows(throws)(full[k]) == o.error
                              && forall i :: 0 <= i < k ==> CallbackThrows(throws)(full[i]).None?)
  {
    var cut := CutAtFailure(InvokeBeanFactoryPostProcessors(env, isRegistry, names0).trace, CallbackThrows(throws));
    FailingOutcome(cut.0, cut.1)
  }

  /**
   * A failed run ends with the callback that threw and never clears the
   * merged definitions; a run without exceptions clears them last.
   */
  lemma FailureSkipsClear(env: Env, isRegistry: bool, names0: seq<Name>, throws: Event -> Option<Error>)
    requires WellFormed(env, names0)
    ensures var o := InvokeWithCallbackFailures(env, isRegistry, names0, throws);
            && (o.error.Some? ==> |o.trace| > 0 && !o.trace[|o.trace| - 1].ClearMetadataCache?
                                  && ClearMetadataCache !in o.trace)
            && (o.error.None? ==> ClearedLast(o.trace))
  {
    MetadataClearedLast(env, isRegistry, names0);
    CutBeforeClear(InvokeBeanFactoryPostProcessors(env, isRegistry, names0).trace, throws);
  }
}
