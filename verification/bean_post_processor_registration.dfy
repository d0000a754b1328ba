/**
 * PostProcessorRegistrationDelegate.registerBeanPostProcessors: the order
 * in which bean post-processors end up in the bean factory's list, and the
 * BeanPostProcessorChecker that reports beans created before that list is
 * complete. The list is a sequence of references; adding a post-processor
 * first removes an equal one already in the list, so a re-registered one
 * moves to the end.
 */
module BeanPostProcessorRegistration {
  import opened Common
  import OrderSort
  import PostProcessorDelegate
  import RootDefinition

  /** A bean post-processor definition: its ordering interface, order value, and whether it merges definitions. */
  datatype BppDef = BppDef(kind: PostProcessorDelegate.Kind, order: PostProcessorDelegate.Int32, isMergedDefinitionProcessor: bool)

  /**
   * An entry of the factory's post-processor list: the checker created by
   * this call (a fresh object, never equal to an entry already there), a
   * post-processor bean, or the ApplicationListenerDetector of the context
   * (equal to any other detector of the same context).
   */
  datatype Bpp = Checker(targetCount: int) | BeanBpp(name: Name) | ListenerDetector

  /** The bean factory: post-processor definitions and the optional dependency comparator, as a rank. */
  datatype Factory = Factory(catalog: map<Name, BppDef>, dependencyComparator: Option<Name -> int>)

  // ---------------------------------------------------------------------
  // The factory's list

  /** The list with every element of `r` removed, the rest in order (List.removeAll). */
  function Without(l: seq<Bpp>, r: seq<Bpp>): seq<Bpp>
    decreases |l|
  {
    if |l| == 0 then [] else (if l[0] in r then [] else [l[0]]) + Without(l[1..], r)
  }

  /** What removal keeps: exactly the elements of the list that are not removed. */
  lemma {:induction false} WithoutMembers(l: seq<Bpp>, r: seq<Bpp>)
    ensures forall x :: x in Without(l, r) <==> x in l && x !in r
    ensures |Without(l, r)| <= |l|
    decreases |l|
  {
    if |l| > 0 {
      WithoutMembers(l[1..], r);
      assert forall x :: x in l <==> x == l[0] || x in l[1..];
    }
  }

  /** addBeanPostProcessor: remove the post-processor if present, then append it. */
  function AddOne(l: seq<Bpp>, p: Bpp): seq<Bpp> {
    Without(l, [p]) + [p]
  }

  /** addBeanPostProcessors: remove all the given post-processors, then append them in order. */
  function AddAll(l: seq<Bpp>, ps: seq<Bpp>): seq<Bpp> {
    Without(l, ps) + ps
  }

  /** After an addition the post-processor is last, there once, and nothing else is lost. */
  lemma AddOneLast(l: seq<Bpp>, p: Bpp)
    ensures var r := AddOne(l, p);
            && r[|r| - 1] == p && p !in r[..|r| - 1]
            && (forall x :: x in r <==> x in l || x == p)
  {
    WithoutMembers(l, [p]);
    var w := Without(l, [p]);
    assert (w + [p])[..|w|] == w;
  }

  /** After a bulk addition the group is the tail of the list, and nothing else is lost. */
  lemma AddAllLast(l: seq<Bpp>, ps: seq<Bpp>)
    ensures var r := AddAll(l, ps);
            && |r| >= |ps| && r[|r| - |ps|..] == ps
            && (forall x :: x in r <==> x in l || x in ps)
  {
    WithoutMembers(l, ps);
    var w := Without(l, ps);
    assert (w + ps)[|w|..] == ps;
  }

  /** One addBeanPostProcessor after another, for a factory that takes no bulk addition. */
  function AddEach(l: seq<Bpp>, ps: seq<Bpp>): seq<Bpp>
    decreases |ps|
  {
    if |ps| == 0 then l else AddOne(AddEach(l, ps[..|ps| - 1]), ps[|ps| - 1])
  }

  lemma {:induction false} WithoutConcat(a: seq<Bpp>, b: seq<Bpp>, r: seq<Bpp>)
    ensures Without(a + b, r) == Without(a, r) + Without(b, r)
    decreases |a|
  {
    if |a| == 0 {
      assert a + b == b;
    } else {
      assert (a + b)[1..] == a[1..] + b;
      WithoutConcat(a[1..], b, r);
    }
  }

  lemma {:induction false} WithoutWithout(l: seq<Bpp>, a: seq<Bpp>, b: seq<Bpp>)
    ensures Without(Without(l, a), b) == Without(l, a + b)
    decreases |l|
  {
    if |l| > 0 {
      WithoutWithout(l[1..], a, b);
      var head := if l[0] in a then [] else [l[0]];
      WithoutConcat(head, Without(l[1..], a), b);
    }
  }

  lemma {:induction false} WithoutNothing(l: seq<Bpp>, r: seq<Bpp>)
    requires forall x :: x in l ==> x !in r
    ensures Without(l, r) == l
    decreases |l|
  {
    if |l| > 0 {
      assert l[0] in l;
      assert forall x :: x in l[1..] ==> x in l;
      WithoutNothing(l[1..], r);
      assert l == [l[0]] + l[1..];
    }
  }

  /** Removal only depends on which elements are removed. */
  lemma {:induction false} WithoutSameElements(l: seq<Bpp>, a: seq<Bpp>, b: seq<Bpp>)
    requires SameElements(a, b)
    ensures Without(l, a) == Without(l, b)
    decreases |l|
  {
    if |l| > 0 {
      WithoutSameElements(l[1..], a, b);
    }
  }

  /** Removing a single element from a duplicate-free list shortens it by at most one. */
  lemma {:induction false} WithoutOneLength(l: seq<Bpp>, p: Bpp)
    requires NoDuplicates(l)
    ensures |Without(l, [p])| >= |l| - 1
    ensures p !in l ==> |Without(l, [p])| == |l|
    decreases |l|
  {
    if |l| > 0 {
      assert NoDuplicates(l[1..]);
      WithoutOneLength(l[1..], p);
      if l[0] == p {
        assert p !in l[1..];
        WithoutNothing(l[1..], [p]);
      } else if p !in l {
        assert p !in l[1..];
      }
    }
  }

  /** Without duplicates among the added post-processors, adding them one by one equals adding them in bulk. */
  lemma {:induction false} AddEachIsAddAll(l: seq<Bpp>, ps: seq<Bpp>)
    requires NoDuplicates(ps)
    ensures AddEach(l, ps) == AddAll(l, ps)
    decreases |ps|
  {
    if |ps| > 0 {
      var n := |ps|;
      var front := ps[..n - 1];
      var p := ps[n - 1];
      assert NoDuplicates(front);
      AddEachIsAddAll(l, front);
      var a := AddEach(l, front);
      assert a == Without(l, front) + front;
      assert AddEach(l, ps) == Without(a, [p]) + [p];
      assert p !in front;
      WithoutConcat(Without(l, front), front, [p]);
      WithoutWithout(l, front, [p]);
      WithoutNothing(front, [p]);
      assert front + [p] == ps;
      assert Without(a, [p]) + [p] == Without(l, ps) + ps;
      assert AddAll(l, ps) == Without(l, ps) + ps;
    } else {
      WithoutNothing(l, ps);
    }
  }

  /** Adding a group in bulk after the list has reached the shape removed-prefix, anchor, middle. */
  lemma AddAllStep(e: seq<Bpp>, removed: seq<Bpp>, anchor: seq<Bpp>, mid: seq<Bpp>, ps: seq<Bpp>)
    requires forall x :: x in anchor ==> x !in ps
    ensures AddAll(Without(e, removed) + anchor + mid, ps)
            == Without(e, removed + ps) + anchor + Without(mid, ps) + ps
  {
    WithoutConcat(Without(e, removed) + anchor, mid, ps);
    WithoutConcat(Without(e, removed), anchor, ps);
    WithoutWithout(e, removed, ps);
    WithoutNothing(anchor, ps);
  }

  // ---------------------------------------------------------------------
  // Grouping and sorting

  function Beans(ns: seq<Name>): (bs: seq<Bpp>)
    ensures |bs| == |ns|
    ensures forall i :: 0 <= i < |ns| ==> bs[i] == BeanBpp(ns[i])
    ensures forall b: Bpp :: b in bs <==> b.BeanBpp? && b.name in ns
    ensures NoDuplicates(ns) ==> NoDuplicates(bs)
  {
    var bs := seq(|ns|, i requires 0 <= i < |ns| => BeanBpp(ns[i]));
    assert forall b: Bpp :: b.BeanBpp? && b.name in ns ==> b in bs by {
      forall b: Bpp | b.BeanBpp? && b.name in ns ensures b in bs {
        var i :| 0 <= i < |ns| && ns[i] == b.name;
        assert bs[i] == b;
      }
    }
    bs
  }

  lemma BeansConcat(a: seq<Name>, b: seq<Name>)
    ensures Beans(a + b) == Beans(a) + Beans(b)
  {
  }

  /** The names of the given kind, in the order of `ns` (the isTypeMatch branches). */
  function OfKind(ns: seq<Name>, f: Factory, k: PostProcessorDelegate.Kind): (r: seq<Name>)
    ensures forall n :: n in r <==> n in ns && n in f.catalog && f.catalog[n].kind == k
    ensures NoDuplicates(ns) ==> NoDuplicates(r)
    decreases |ns|
  {
    if |ns| == 0 then []
    else
      assert forall n :: n in ns <==> n == ns[0] || n in ns[1..];
      var rest := OfKind(ns[1..], f, k);
      if ns[0] in f.catalog && f.catalog[ns[0]].kind == k then [ns[0]] + rest else rest
  }

  /** The MergedBeanDefinitionPostProcessors among `ns`, in order. */
  function Merged(ns: seq<Name>, f: Factory): (r: seq<Name>)
    ensures forall n :: n in r <==> n in ns && n in f.catalog && f.catalog[n].isMergedDefinitionProcessor
    ensures NoDuplicates(ns) ==> NoDuplicates(r)
    decreases |ns|
  {
    if |ns| == 0 then []
    else
      assert forall n :: n in ns <==> n == ns[0] || n in ns[1..];
      var rest := Merged(ns[1..], f);
      if ns[0] in f.catalog && f.catalog[ns[0]].isMergedDefinitionProcessor then [ns[0]] + rest else rest
  }

  /** OrderComparator over post-processor beans; a name without a definition ranks as a plain object. */
  function OrderComparator(f: Factory): Name -> int {
    n => if n in f.catalog then PostProcessorDelegate.OrderRank(f.catalog[n].kind, f.catalog[n].order)
         else PostProcessorDelegate.OrderRank(PostProcessorDelegate.PlainKind, 0)
  }

  function RankOf(f: Factory): Name -> int {
    PostProcessorDelegate.ComparatorToUse(f.dependencyComparator, OrderComparator(f))
  }

  /** sortPostProcessors over post-processor beans. */
  function SortBeans(ns: seq<Name>, f: Factory): (r: seq<Name>)
    ensures OrderSort.SortedByRank(r, RankOf(f))
    ensures forall n :: n in r <==> n in ns
    ensures NoDuplicates(ns) ==> NoDuplicates(r)
  {
    var r := PostProcessorDelegate.SortPostProcessors(ns, f.dependencyComparator, OrderComparator(f));
    assert forall n :: n in r <==> n in multiset(r);
    assert forall n :: n in ns <==> n in multiset(ns);
    assert NoDuplicates(ns) ==> NoDuplicates(r) by {
      if NoDuplicates(ns) {
        PostProcessorDelegate.PermutationKeepsDistinct(ns, r);
      }
    }
    r
  }

  /**
   * Without a dependency comparator the sorted beans follow OrderComparator:
   * a PriorityOrdered bean is never preceded by one that is not, and beans
   * alike in that respect come by ascending effective order.
   */
  lemma SortBeansByOrderComparator(ns: seq<Name>, f: Factory)
    ensures var r := SortBeans(ns, f);
            f.dependencyComparator.None? ==>
            forall i, j :: 0 <= i < j < |r| && r[i] in f.catalog && r[j] in f.catalog ==>
              var a, b := f.catalog[r[i]], f.catalog[r[j]];
              (b.kind == PostProcessorDelegate.PriorityOrderedKind ==> a.kind == PostProcessorDelegate.PriorityOrderedKind)
              && ((a.kind == PostProcessorDelegate.PriorityOrderedKind) == (b.kind == PostProcessorDelegate.PriorityOrderedKind)
                  ==> PostProcessorDelegate.EffectiveOrder(a.kind, a.order) <= PostProcessorDelegate.EffectiveOrder(b.kind, b.order))
  {
    var r := SortBeans(ns, f);
    if f.dependencyComparator.None? {
      forall i, j | 0 <= i < j < |r| && r[i] in f.catalog && r[j] in f.catalog
        ensures var a, b := f.catalog[r[i]], f.catalog[r[j]];
                (b.kind == PostProcessorDelegate.PriorityOrderedKind ==> a.kind == PostProcessorDelegate.PriorityOrderedKind)
                && ((a.kind == PostProcessorDelegate.PriorityOrderedKind) == (b.kind == PostProcessorDelegate.PriorityOrderedKind)
                    ==> PostProcessorDelegate.EffectiveOrder(a.kind, a.order) <= PostProcessorDelegate.EffectiveOrder(b.kind, b.order))
      {
        var a, b := f.catalog[r[i]], f.catalog[r[j]];
        assert RankOf(f)(r[i]) <= RankOf(f)(r[j]);
        PostProcessorDelegate.OrderRankCompares(a.kind, a.order, b.kind, b.order);
      }
    }
  }

  // ---------------------------------------------------------------------
  // registerBeanPostProcessors

  /** getBeanNamesForType(BeanPostProcessor): distinct names of defined post-processors. */
  predicate WellFormed(names: seq<Name>, f: Factory) {
    NoDuplicates(names) && forall n :: n in names ==> n in f.catalog
  }

  /** The three groups by ordering interface, each sorted where sortPostProcessors is applied, and the internal ones. */
  datatype Groups = Groups(priority: seq<Name>, ordered: seq<Name>, plain: seq<Name>, internal: seq<Name>)

  function GroupsOf(names: seq<Name>, f: Factory): Groups {
    var prio := OfKind(names, f, PostProcessorDelegate.PriorityOrderedKind);
    var ord := OfKind(names, f, PostProcessorDelegate.OrderedKind);
    var plain := OfKind(names, f, PostProcessorDelegate.PlainKind);
    Groups(SortBeans(prio, f), SortBeans(ord, f), plain,
           SortBeans(Merged(prio, f) + Merged(ord, f) + Merged(plain, f), f))
  }

  /**
   * The five additions of registerBeanPostProcessors in order: the
   * checker, the PriorityOrdered group, the Ordered group, the rest, the
   * internal group again, and the listener detector.
   */
  function Chain(existing: seq<Bpp>, target: int, p: seq<Bpp>, o: seq<Bpp>, n: seq<Bpp>, i: seq<Bpp>): seq<Bpp> {
    var l1 := existing + [Checker(target)];
    var l2 := AddAll(l1, p);
    var l3 := AddAll(l2, o);
    var l4 := AddAll(l3, n);
    var l5 := AddAll(l4, i);
    AddOne(l5, ListenerDetector)
  }

  /** The checker's target count: the post-processors there before, the checker, and the new ones. */
  function TargetCount(existing: seq<Bpp>, names: seq<Name>): int {
    |existing| + 1 + |names|
  }

  /**
   * registerBeanPostProcessors: the factory's list afterwards and the
   * checker's target count. `existing` is the list before the call.
   */
  function RegisterBeanPostProcessors(existing: seq<Bpp>, names: seq<Name>, f: Factory): (r: (seq<Bpp>, int))
    requires WellFormed(names, f)
    ensures r.1 == |existing| + 1 + |names|
    ensures |r.0| > 0 && r.0[|r.0| - 1] == ListenerDetector
  {
    var target := TargetCount(existing, names);
    var g := GroupsOf(names, f);
    (Chain(existing, target, Beans(g.priority), Beans(g.ordered), Beans(g.plain), Beans(g.internal)), target)
  }

  /** Three disjoint groups of distinct names covering `names`, and a fourth drawn from them. */
  ghost predicate NameGroups(a: seq<Name>, b: seq<Name>, c: seq<Name>, d: seq<Name>, names: seq<Name>) {
    && (forall n :: n in names <==> n in a || n in b || n in c)
    && (forall n :: n in a ==> n !in b && n !in c)
    && (forall n :: n in b ==> n !in c)
    && (forall n :: n in d ==> n in names)
    && NoDuplicates(a) && NoDuplicates(b) && NoDuplicates(c) && NoDuplicates(d)
  }

  /** Facts about the groups: disjoint, covering the names, internal ones drawn from them. */
  lemma GroupFacts(names: seq<Name>, f: Factory)
    requires WellFormed(names, f)
    ensures var g := GroupsOf(names, f);
            && NameGroups(g.priority, g.ordered, g.plain, g.internal, names)
            && (forall n :: n in g.internal <==> n in names && f.catalog[n].isMergedDefinitionProcessor)
  {
    var prio := OfKind(names, f, PostProcessorDelegate.PriorityOrderedKind);
    var ord := OfKind(names, f, PostProcessorDelegate.OrderedKind);
    var plain := OfKind(names, f, PostProcessorDelegate.PlainKind);
    var a := Merged(prio, f);
    var b := Merged(ord, f);
    var c := Merged(plain, f);
    PostProcessorDelegate.DistinctConcat(a, b);
    PostProcessorDelegate.DistinctConcat(a + b, c);
  }

  /** The groups handed to Chain: bean references, the first three disjoint, the last drawn from them. */
  ghost predicate ChainGroups(p: seq<Bpp>, o: seq<Bpp>, n: seq<Bpp>, i: seq<Bpp>) {
    && (forall x :: x in p ==> x.BeanBpp?)
    && (forall x :: x in o ==> x.BeanBpp?)
    && (forall x :: x in n ==> x.BeanBpp?)
    && (forall x :: x in p ==> x !in o && x !in n)
    && (forall x :: x in o ==> x !in n)
    && (forall x :: x in i ==> x in p + o + n)
    && NoDuplicates(p) && NoDuplicates(o) && NoDuplicates(n) && NoDuplicates(i)
  }

  /** After the checker and the three groups: the earlier entries not re-registered, the checker, the groups. */
  lemma ChainPrefix(existing: seq<Bpp>, target: int, p: seq<Bpp>, o: seq<Bpp>, n: seq<Bpp>, i: seq<Bpp>)
    requires ChainGroups(p, o, n, i)
    ensures AddAll(AddAll(AddAll(existing + [Checker(target)], p), o), n)
            == Without(existing, p + o + n) + [Checker(target)] + (p + o + n)
  {
    var c := [Checker(target)];
    assert Checker(target) !in p && Checker(target) !in o && Checker(target) !in n;
    assert forall x :: x in c ==> x !in p && x !in o && x !in n;
    var l2 := AddAll(existing + c, p);
    assert l2 == Without(existing, p) + c + p by {
      WithoutConcat(existing, c, p);
      WithoutNothing(c, p);
    }
    var l3 := AddAll(l2, o);
    assert l3 == Without(existing, p + o) + c + (p + o) by {
      AddAllStep(existing, p, c, p, o);
      WithoutNothing(p, o);
    }
    assert AddAll(l3, n) == Without(existing, p + o + n) + c + (p + o + n) by {
      AddAllStep(existing, p + o, c, p + o, n);
      WithoutNothing(p + o, n);
    }
  }

  lemma ChainShape(existing: seq<Bpp>, target: int, p: seq<Bpp>, o: seq<Bpp>, n: seq<Bpp>, i: seq<Bpp>)
    requires ChainGroups(p, o, n, i)
    ensures Chain(existing, target, p, o, n, i)
            == Without(existing, p + o + n + [ListenerDetector]) + [Checker(target)]
               + Without(p + o + n, i) + i + [ListenerDetector]
  {
    var c := [Checker(target)];
    var d := [ListenerDetector];
    var pon := p + o + n;
    var l4 := AddAll(AddAll(AddAll(existing + c, p), o), n);
    assert l4 == Without(existing, pon) + c + pon by {
      ChainPrefix(existing, target, p, o, n, i);
    }
    var l5 := AddAll(l4, i);
    var tail := Without(pon, i) + i;
    assert l5 == Without(existing, pon) + c + tail by {
      assert forall x :: x in c ==> x !in i;
      AddAllStep(existing, pon, c, pon, i);
      WithoutSameElements(existing, pon + i, pon);
    }
    assert AddAll(l5, d) == Without(existing, pon + d) + c + tail + d by {
      AddAllStep(existing, pon, c, tail, d);
      WithoutMembers(pon, i);
      assert forall x :: x in tail ==> x.BeanBpp?;
      WithoutNothing(tail, d);
    }
    assert Chain(existing, target, p, o, n, i) == AddAll(l5, d);
  }

  /**
   * The list registerBeanPostProcessors leaves behind: the earlier entries
   * that are not re-registered, the checker, the PriorityOrdered, Ordered
   * and other post-processors except the internal ones, the internal ones
   * in comparator order, and the listener detector last.
   */
  lemma RegisterShape(existing: seq<Bpp>, names: seq<Name>, f: Factory)
    requires WellFormed(names, f)
    ensures RegisterBeanPostProcessors(existing, names, f).1 == |existing| + 1 + |names|
    ensures var g := GroupsOf(names, f);
            var pon := Beans(g.priority) + Beans(g.ordered) + Beans(g.plain);
            RegisterBeanPostProcessors(existing, names, f).0
            == Without(existing, Beans(names) + [ListenerDetector]) + [Checker(TargetCount(existing, names))]
               + Without(pon, Beans(g.internal)) + Beans(g.internal) + [ListenerDetector]
  {
    RegisterIsChain(existing, names, f);
    GroupsChain(names, f);
    GroupedShape(existing, TargetCount(existing, names), GroupsOf(names, f), names);
  }

  /** registerBeanPostProcessors is Chain over the groups, with the target count it computes. */
  lemma RegisterIsChain(existing: seq<Bpp>, names: seq<Name>, f: Factory)
    requires WellFormed(names, f)
    ensures RegisterBeanPostProcessors(existing, names, f).1 == TargetCount(existing, names)
    ensures var g := GroupsOf(names, f);
            RegisterBeanPostProcessors(existing, names, f).0
            == Chain(existing, TargetCount(existing, names), Beans(g.priority), Beans(g.ordered), Beans(g.plain), Beans(g.internal))
  {
  }

  /** ChainShape for groups that together hold the names. */
  lemma GroupedShape(existing: seq<Bpp>, target: int, g: Groups, names: seq<Name>)
    requires ChainGroups(Beans(g.priority), Beans(g.ordered), Beans(g.plain), Beans(g.internal))
    requires SameElements(Beans(g.priority) + Beans(g.ordered) + Beans(g.plain) + [ListenerDetector],
                          Beans(names) + [ListenerDetector])
    ensures var pon := Beans(g.priority) + Beans(g.ordered) + Beans(g.plain);
            Chain(existing, target, Beans(g.priority), Beans(g.ordered), Beans(g.plain), Beans(g.internal))
            == Without(existing, Beans(names) + [ListenerDetector]) + [Checker(target)]
               + Without(pon, Beans(g.internal)) + Beans(g.internal) + [ListenerDetector]
  {
    var pon := Beans(g.priority) + Beans(g.ordered) + Beans(g.plain);
    ChainShape(existing, target, Beans(g.priority), Beans(g.ordered), Beans(g.plain), Beans(g.internal));
    WithoutSameElements(existing, pon + [ListenerDetector], Beans(names) + [ListenerDetector]);
  }

  /** Two sequences with the same elements. */
  ghost predicate SameElements(a: seq<Bpp>, b: seq<Bpp>) {
    forall x :: x in a <==> x in b
  }

  /** Name groups become reference groups fit for Chain. */
  lemma BeansLift(a: seq<Name>, b: seq<Name>, c: seq<Name>, d: seq<Name>, names: seq<Name>)
    requires NameGroups(a, b, c, d, names)
    ensures ChainGroups(Beans(a), Beans(b), Beans(c), Beans(d))
    ensures SameElements(Beans(a) + Beans(b) + Beans(c) + [ListenerDetector], Beans(names) + [ListenerDetector])
    ensures SameElements(Beans(a) + Beans(b) + Beans(c), Beans(names))
  {
  }

  /** The groups of registerBeanPostProcessors meet what Chain needs, and together are the names. */
  lemma GroupsChain(names: seq<Name>, f: Factory)
    requires WellFormed(names, f)
    ensures var g := GroupsOf(names, f);
            var pon := Beans(g.priority) + Beans(g.ordered) + Beans(g.plain);
            && ChainGroups(Beans(g.priority), Beans(g.ordered), Beans(g.plain), Beans(g.internal))
            && SameElements(pon + [ListenerDetector], Beans(names) + [ListenerDetector])
            && SameElements(pon, Beans(names))
            && |pon| == |names|
  {
    var g := GroupsOf(names, f);
    GroupFacts(names, f);
    GroupsCover(names, f);
    BeansLift(g.priority, g.ordered, g.plain, g.internal, names);
  }

  lemma {:induction false} WithoutDistinct(l: seq<Bpp>, r: seq<Bpp>)
    requires NoDuplicates(l)
    ensures NoDuplicates(Without(l, r))
    decreases |l|
  {
    if |l| > 0 {
      assert NoDuplicates(l[1..]);
      WithoutDistinct(l[1..], r);
      WithoutMembers(l[1..], r);
      assert l[0] !in l[1..];
      PostProcessorDelegate.DistinctConcat(if l[0] in r then [] else [l[0]], Without(l[1..], r));
    }
  }

  lemma ChainMembers(existing: seq<Bpp>, target: int, p: seq<Bpp>, o: seq<Bpp>, n: seq<Bpp>, i: seq<Bpp>)
    requires ChainGroups(p, o, n, i)
    ensures var l := Chain(existing, target, p, o, n, i);
            && (forall x: Bpp :: x.BeanBpp? ==> (x in l <==> x in p + o + n || x in existing))
            && l[|l| - 1] == ListenerDetector && ListenerDetector !in l[..|l| - 1]
            && (NoDuplicates(existing) && Checker(target) !in existing ==> NoDuplicates(l))
  {
    var pon := p + o + n;
    ChainShape(existing, target, p, o, n, i);
    LayoutMembers(existing, target, pon, i);
    if NoDuplicates(existing) && Checker(target) !in existing {
      PostProcessorDelegate.DistinctConcat(p, o);
      PostProcessorDelegate.DistinctConcat(p + o, n);
      LayoutDistinct(existing, target, pon, i);
    }
  }

  /** The members of the final layout: the beans and the earlier entries, with the detector once, at the end. */
  lemma LayoutMembers(existing: seq<Bpp>, target: int, pon: seq<Bpp>, i: seq<Bpp>)
    requires forall x :: x in pon ==> x.BeanBpp?
    requires forall x :: x in i ==> x in pon
    ensures var l := Without(existing, pon + [ListenerDetector]) + [Checker(target)] + Without(pon, i) + i + [ListenerDetector];
            && (forall x: Bpp :: x.BeanBpp? ==> (x in l <==> x in pon || x in existing))
            && l[|l| - 1] == ListenerDetector && ListenerDetector !in l[..|l| - 1]
  {
    var d := [ListenerDetector];
    var e := Without(existing, pon + d);
    var w := Without(pon, i);
    var front := e + [Checker(target)] + w + i;
    WithoutMembers(existing, pon + d);
    WithoutMembers(pon, i);
    assert ListenerDetector !in front;
    assert (front + d)[..|front|] == front;
  }

  /** The final layout has no duplicates when the earlier list had none and lacked this checker. */
  lemma LayoutDistinct(existing: seq<Bpp>, target: int, pon: seq<Bpp>, i: seq<Bpp>)
    requires NoDuplicates(existing) && NoDuplicates(pon) && NoDuplicates(i) && Checker(target) !in existing
    requires forall x :: x in pon ==> x.BeanBpp?
    requires forall x :: x in i ==> x in pon
    ensures NoDuplicates(Without(existing, pon + [ListenerDetector]) + [Checker(target)] + Without(pon, i) + i + [ListenerDetector])
  {
    var c := [Checker(target)];
    var d := [ListenerDetector];
    var e := Without(existing, pon + d);
    var w := Without(pon, i);
    WithoutMembers(existing, pon + d);
    WithoutMembers(pon, i);
    WithoutDistinct(pon, i);
    WithoutDistinct(existing, pon + d);
    PostProcessorDelegate.DistinctConcat(e, c);
    PostProcessorDelegate.DistinctConcat(e + c, w);
    PostProcessorDelegate.DistinctConcat(e + c + w, i);
    PostProcessorDelegate.DistinctConcat(e + c + w + i, d);
  }

  /** Every post-processor bean is in the list exactly once afterwards, and the detector is last. */
  lemma RegisterMembers(existing: seq<Bpp>, names: seq<Name>, f: Factory)
    requires WellFormed(names, f)
    ensures var l := RegisterBeanPostProcessors(existing, names, f).0;
            && (forall m :: BeanBpp(m) in l <==> m in names || BeanBpp(m) in existing)
            && l[|l| - 1] == ListenerDetector && ListenerDetector !in l[..|l| - 1]
            && (NoDuplicates(existing) && Checker(TargetCount(existing, names)) !in existing ==> NoDuplicates(l))
  {
    RegisterIsChain(existing, names, f);
    GroupsChain(names, f);
    GroupedMembers(existing, TargetCount(existing, names), GroupsOf(names, f), names);
  }

  /** ChainMembers for groups that together hold the names. */
  lemma GroupedMembers(existing: seq<Bpp>, target: int, g: Groups, names: seq<Name>)
    requires ChainGroups(Beans(g.priority), Beans(g.ordered), Beans(g.plain), Beans(g.internal))
    requires SameElements(Beans(g.priority) + Beans(g.ordered) + Beans(g.plain), Beans(names))
    ensures var l := Chain(existing, target, Beans(g.priority), Beans(g.ordered), Beans(g.plain), Beans(g.internal));
            && (forall m :: BeanBpp(m) in l <==> m in names || BeanBpp(m) in existing)
            && l[|l| - 1] == ListenerDetector && ListenerDetector !in l[..|l| - 1]
            && (NoDuplicates(existing) && Checker(target) !in existing ==> NoDuplicates(l))
  {
    ChainMembers(existing, target, Beans(g.priority), Beans(g.ordered), Beans(g.plain), Beans(g.internal));
  }

  // ---------------------------------------------------------------------
  // BeanPostProcessorChecker

  /** isInfrastructureBean: a defined bean whose role is ROLE_INFRASTRUCTURE. */
  predicate IsInfrastructureBean(beanName: Option<Name>, roles: map<Name, int>) {
    beanName.Some? && beanName.value in roles && roles[beanName.value] == RootDefinition.ROLE_INFRASTRUCTURE
  }

  /**
   * postProcessAfterInitialization: the bean is returned unchanged; the
   * second component says whether the "not eligible for getting processed
   * by all BeanPostProcessors" message is logged. `roles` are the roles of
   * the defined beans and `count` the current size of the factory's list.
   */
  function CheckerAfterInitialization<B>(checker: Bpp, bean: B, isPostProcessor: bool, beanName: Option<Name>,
                                         roles: map<Name, int>, count: int): (r: (B, bool))
    requires checker.Checker?
    ensures r.0 == bean
    ensures r.1 ==> !isPostProcessor && count < checker.targetCount
    ensures r.1 ==> !(beanName.Some? && beanName.value in roles
                      && roles[beanName.value] == RootDefinition.ROLE_INFRASTRUCTURE)
    ensures (&& !isPostProcessor
             && count < checker.targetCount
             && (beanName.None? || beanName.value !in roles || roles[beanName.value] != RootDefinition.ROLE_INFRASTRUCTURE))
            ==> r.1
  {
    (bean, !isPostProcessor && !IsInfrastructureBean(beanName, roles) && count < checker.targetCount)
  }

  /** The elements of a duplicate-free sequence are as many as its length. */
  lemma {:induction false} DistinctCardinality(s: seq<Bpp>)
    requires NoDuplicates(s)
    ensures |Elements(s)| == |s|
    decreases |s|
  {
    if |s| > 0 {
      assert NoDuplicates(s[1..]);
      DistinctCardinality(s[1..]);
      assert Elements(s) == {s[0]} + Elements(s[1..]);
      assert s[0] !in s[1..];
    }
  }

  /** Removal keeps the elements not removed and drops exactly those that are. */
  lemma {:induction false} WithoutCardinality(l: seq<Bpp>, r: seq<Bpp>)
    requires NoDuplicates(l)
    ensures |Without(l, r)| + |Elements(l) * Elements(r)| == |l|
    decreases |l|
  {
    if |l| > 0 {
      var x, t := l[0], l[1..];
      assert NoDuplicates(t);
      WithoutCardinality(t, r);
      assert x !in Elements(t) by {
        assert x !in t;
      }
      assert Elements(l) == {x} + Elements(t) by {
        assert forall y :: y in l <==> y == x || y in t;
      }
      InsertIntersectionSize(x, Elements(t), Elements(r));
    }
  }

  /** Adding a new element to one side of an intersection adds it to the intersection if the other side has it. */
  lemma InsertIntersectionSize<T>(x: T, a: set<T>, b: set<T>)
    requires x !in a
    ensures |({x} + a) * b| == |a * b| + (if x in b then 1 else 0)
  {
    if x in b {
      assert ({x} + a) * b == (a * b) + {x};
    } else {
      assert ({x} + a) * b == a * b;
    }
  }

  /** Re-adding a duplicate-free group drawn from a duplicate-free list keeps the list's length. */
  lemma CoveredLength(l: seq<Bpp>, r: seq<Bpp>)
    requires NoDuplicates(l) && NoDuplicates(r)
    requires forall x :: x in r ==> x in l
    ensures |Without(l, r)| + |r| == |l|
  {
    WithoutCardinality(l, r);
    assert Elements(l) * Elements(r) == Elements(r);
    DistinctCardinality(r);
  }

  lemma ChainLength(existing: seq<Bpp>, target: int, p: seq<Bpp>, o: seq<Bpp>, n: seq<Bpp>, i: seq<Bpp>)
    requires ChainGroups(p, o, n, i)
    requires NoDuplicates(existing)
    requires forall x :: x in p + o + n ==> x !in existing
    ensures |Chain(existing, target, p, o, n, i)| >= |existing| + 1 + |p| + |o| + |n|
  {
    var pon := p + o + n;
    var d := [ListenerDetector];
    assert |Chain(existing, target, p, o, n, i)|
           == |Without(existing, pon + d)| + 1 + |Without(pon, i)| + |i| + 1 by {
      ChainShape(existing, target, p, o, n, i);
    }
    assert |Without(existing, pon + d)| >= |existing| - 1 by {
      WithoutWithout(existing, d, pon);
      WithoutSameElements(existing, d + pon, pon + d);
      WithoutMembers(existing, d);
      WithoutNothing(Without(existing, d), pon);
      WithoutOneLength(existing, ListenerDetector);
    }
    assert |Without(pon, i)| + |i| == |pon| by {
      PostProcessorDelegate.DistinctConcat(p, o);
      PostProcessorDelegate.DistinctConcat(p + o, n);
      CoveredLength(pon, i);
    }
  }

  /**
   * The checker's target is the length the list reaches: once registration
   * is complete (the list held no duplicates and none of the new beans),
   * no bean is reported.
   */
  lemma CheckerSilentAfterRegistration<B>(existing: seq<Bpp>, names: seq<Name>, f: Factory,
                                          bean: B, isPostProcessor: bool, beanName: Option<Name>,
                                          roles: map<Name, int>)
    requires WellFormed(names, f)
    requires NoDuplicates(existing)
    requires forall m :: m in names ==> BeanBpp(m) !in existing
    ensures var r := RegisterBeanPostProcessors(existing, names, f);
            |r.0| >= r.1
            && !CheckerAfterInitialization(Checker(r.1), bean, isPostProcessor, beanName, roles, |r.0|).1
  {
    RegisterIsChain(existing, names, f);
    GroupsChain(names, f);
    GroupedLength(existing, TargetCount(existing, names), GroupsOf(names, f), names);
  }

  /** ChainLength for groups that together hold the names. */
  lemma GroupedLength(existing: seq<Bpp>, target: int, g: Groups, names: seq<Name>)
    requires ChainGroups(Beans(g.priority), Beans(g.ordered), Beans(g.plain), Beans(g.internal))
    requires SameElements(Beans(g.priority) + Beans(g.ordered) + Beans(g.plain), Beans(names))
    requires |Beans(g.priority) + Beans(g.ordered) + Beans(g.plain)| == |names|
    requires NoDuplicates(existing)
    requires forall m :: m in names ==> BeanBpp(m) !in existing
    ensures |Chain(existing, target, Beans(g.priority), Beans(g.ordered), Beans(g.plain), Beans(g.internal))|
            >= |existing| + 1 + |names|
  {
    ChainLength(existing, target, Beans(g.priority), Beans(g.ordered), Beans(g.plain), Beans(g.internal));
  }

  /** The three groups together are as many as the names. */
  lemma GroupsCover(names: seq<Name>, f: Factory)
    requires WellFormed(names, f)
    ensures var g := GroupsOf(names, f);
            |g.priority| + |g.ordered| + |g.plain| == |names|
  {
    var prio := OfKind(names, f, PostProcessorDelegate.PriorityOrderedKind);
    var ord := OfKind(names, f, PostProcessorDelegate.OrderedKind);
    KindSplitLength(names, f);
    SortLength(prio, f);
    SortLength(ord, f);
  }

  lemma SortLength(ns: seq<Name>, f: Factory)
    ensures |SortBeans(ns, f)| == |ns|
  {
  }

  lemma {:induction false} KindSplitLength(ns: seq<Name>, f: Factory)
    requires forall n :: n in ns ==> n in f.catalog
    ensures |OfKind(ns, f, PostProcessorDelegate.PriorityOrderedKind)| + |OfKind(ns, f, PostProcessorDelegate.OrderedKind)|
            + |OfKind(ns, f, PostProcessorDelegate.PlainKind)| == |ns|
    decreases |ns|
  {
    if |ns| > 0 {
      assert forall n :: n in ns[1..] ==> n in ns;
      KindSplitLength(ns[1..], f);
      assert ns[0] in ns;
    }
  }
}
