/**
 * BeanNameUrlHandlerMapping.determineUrlsForHandler: a bean is mapped to
 * every one of its names, the bean name first and then its aliases, that
 * starts with a slash.
 */
module BeanNameUrl {
  import opened Common

  predicate IsUrl(name: Name) {
    StartsWith(name, "/")
  }

  /** The names in `names` that start with "/", in order. */
  function UrlNames(names: seq<Name>): (urls: seq<Name>)
    ensures |urls| <= |names|
    ensures forall u :: u in urls <==> u in names && IsUrl(u)
  {
    if |names| == 0 then []
    else if IsUrl(names[0]) then [names[0]] + UrlNames(names[1..])
    else UrlNames(names[1..])
  }

  /** determineUrlsForHandler, with the context's aliases for the bean passed in. */
  function DetermineUrlsForHandler(beanName: Name, aliases: seq<Name>): (urls: seq<Name>)
    ensures forall u :: u in urls <==> (u == beanName || u in aliases) && IsUrl(u)
    ensures |urls| <= 1 + |aliases|
    ensures IsUrl(beanName) ==> |urls| > 0 && urls[0] == beanName
    ensures !IsUrl(beanName) ==> urls == UrlNames(aliases)
  {
    UrlNames([beanName] + aliases)
  }

  /**
   * Filtering distributes over concatenation, so the URLs of the bean name
   * always precede those of the aliases, and the aliases keep their order.
   */
  lemma {:induction false} UrlNamesAppend(a: seq<Name>, b: seq<Name>)
    ensures UrlNames(a + b) == UrlNames(a) + UrlNames(b)
    decreases |a|
  {
    if |a| > 0 {
      assert (a + b)[1..] == a[1..] + b;
      UrlNamesAppend(a[1..], b);
    } else {
      assert a + b == b;
    }
  }

  /** The URLs are the bean name (when it is one) followed by the alias URLs. */
  lemma DetermineUrlsShape(beanName: Name, aliases: seq<Name>)
    ensures DetermineUrlsForHandler(beanName, aliases)
            == (if IsUrl(beanName) then [beanName] else []) + UrlNames(aliases)
  {
    UrlNamesAppend([beanName], aliases);
    assert [beanName][1..] == [];
  }
}
