/**
 * HandlerMethodArgumentResolverComposite: an ordered list of argument
 * resolvers plus a per-parameter cache of the resolver chosen for it.
 * Resolvers and method parameters are type parameters; a resolver's
 * supportsParameter is the function `supports`.
 */
module ResolverComposite {
  import opened Common

  datatype Composite<P, R> = Composite(resolvers: seq<R>, cache: map<P, R>)

  function Empty<P, R>(): Composite<P, R> {
    Composite([], map[])
  }

  /** addResolver: append one resolver. */
  function AddResolver<P, R>(c: Composite<P, R>, r: R): (c': Composite<P, R>)
    ensures c'.resolvers == c.resolvers + [r] && c'.cache == c.cache
  {
    c.(resolvers := c.resolvers + [r])
  }

  /** addResolvers: append all of them; a null argument changes nothing. */
  function AddResolvers<P, R>(c: Composite<P, R>, rs: Option<seq<R>>): (c': Composite<P, R>)
    ensures rs.None? ==> c' == c
    ensures rs.Some? ==> c'.resolvers == c.resolvers + rs.value && c'.cache == c.cache
  {
    if rs.None? then c else c.(resolvers := c.resolvers + rs.value)
  }

  /** clear: empties the resolver list. The cache is not cleared. */
  function Clear<P, R>(c: Composite<P, R>): (c': Composite<P, R>)
    ensures c'.resolvers == [] && c'.cache == c.cache
  {
    c.(resolvers := [])
  }

  /** The first resolver of `rs` that supports `p`, if any. */
  function FirstSupporting<P, R>(rs: seq<R>, p: P, supports: (R, P) -> bool): (r: Option<R>)
    ensures r.Some? ==> r.value in rs && supports(r.value, p)
    ensures r.None? <==> forall i :: 0 <= i < |rs| ==> !supports(rs[i], p)
    ensures r.Some? ==> exists j :: 0 <= j < |rs| && rs[j] == r.value
                                    && forall i :: 0 <= i < j ==> !supports(rs[i], p)
  {
    if |rs| == 0 then None
    else if supports(rs[0], p) then Some(rs[0])
    else
      var rest := FirstSupporting(rs[1..], p, supports);
      assert rest.Some? ==> exists j :: 0 <= j < |rs| && rs[j] == rest.value
                                     && forall i :: 0 <= i < j ==> !supports(rs[i], p) by {
        if rest.Some? {
          var j :| 0 <= j < |rs[1..]| && rs[1..][j] == rest.value
                   && forall i :: 0 <= i < j ==> !supports(rs[1..][i], p);
          assert rs[j + 1] == rest.value;
          assert forall i :: 0 <= i < j + 1 ==> !supports(rs[i], p) by {
            forall i | 0 <= i < j + 1 ensures !supports(rs[i], p) {
              if i > 0 { assert rs[i] == rs[1..][i - 1]; }
            }
          }
        }
      }
      rest
  }

  /** Every cached resolver supports the parameter it is cached for. */
  predicate CacheSound<P(!new), R>(c: Composite<P, R>, supports: (R, P) -> bool) {
    forall p :: p in c.cache ==> supports(c.cache[p], p)
  }

  /**
   * getArgumentResolver: the cached resolver, else the first registered
   * resolver that supports the parameter, which is then cached.
   */
  method GetArgumentResolver<P(==), R>(c: Composite<P, R>, p: P, supports: (R, P) -> bool)
    returns (result: Option<R>, c': Composite<P, R>)
    ensures p in c.cache ==> result == Some(c.cache[p]) && c' == c
    ensures p !in c.cache ==> result == FirstSupporting(c.resolvers, p, supports)
    ensures p !in c.cache && result.None? ==> c' == c
    ensures p !in c.cache && result.Some? ==> c' == c.(cache := c.cache[p := result.value])
  {
    c' := c;
    if p in c.cache {
      return Some(c.cache[p]), c;
    }
    result := None;
    var i := 0;
    while i < |c.resolvers|
      invariant 0 <= i <= |c.resolvers|
      invariant FirstSupporting(c.resolvers, p, supports) == FirstSupporting(c.resolvers[i..], p, supports)
    {
      if supports(c.resolvers[i], p) {
        result := Some(c.resolvers[i]);
        c' := c.(cache := c.cache[p := c.resolvers[i]]);
        return;
      }
      assert c.resolvers[i..][1..] == c.resolvers[i + 1..];
      i := i + 1;
    }
  }

  /**
   * The cache never breaks soundness, and a second lookup of the same
   * parameter returns the same resolver without changing anything.
   */
  method LookupTwice<P(!new, ==), R>(c: Composite<P, R>, p: P, supports: (R, P) -> bool)
    returns (first: Option<R>, second: Option<R>, c'': Composite<P, R>)
    requires CacheSound(c, supports)
    ensures second == first
    ensures first.Some? ==> supports(first.value, p)
    ensures CacheSound(c'', supports)
  {
    var c';
    first, c' := GetArgumentResolver(c, p, supports);
    second, c'' := GetArgumentResolver(c', p, supports);
  }

  /** supportsParameter: some resolver is found. */
  method SupportsParameter<P(==), R>(c: Composite<P, R>, p: P, supports: (R, P) -> bool)
    returns (supported: bool, c': Composite<P, R>)
    ensures p !in c.cache ==> (supported <==> exists i :: 0 <= i < |c.resolvers| && supports(c.resolvers[i], p))
    ensures p in c.cache ==> supported && c' == c
  {
    var r;
    r, c' := GetArgumentResolver(c, p, supports);
    supported := r.Some?;
  }

  /**
   * resolveArgument: delegate to the resolver found, or fail with
   * IllegalArgumentException. `resolve` is the chosen resolver's own
   * resolveArgument.
   */
  method ResolveArgument<P(==), R, V>(c: Composite<P, R>, p: P, supports: (R, P) -> bool,
                                      resolve: (R, P) -> Result<V>)
    returns (result: Result<V>, c': Composite<P, R>)
    ensures p !in c.cache && FirstSupporting(c.resolvers, p, supports).None? ==>
              result == Err(IllegalArgument) && c' == c
    ensures p !in c.cache && FirstSupporting(c.resolvers, p, supports).Some? ==>
              result == resolve(FirstSupporting(c.resolvers, p, supports).value, p)
    ensures p in c.cache ==> result == resolve(c.cache[p], p) && c' == c
  {
    var r;
    r, c' := GetArgumentResolver(c, p, supports);
    if r.None? {
      return Err(IllegalArgument), c';
    }
    result := resolve(r.value, p);
  }

  /**
   * After clear, a parameter that was cached is still supported by its
   * cached resolver even though no resolver is registered any more.
   */
  method SupportedAfterClear<P(==), R>(c: Composite<P, R>, p: P, supports: (R, P) -> bool)
    returns (supported: bool)
    requires p in c.cache
    ensures supported
    ensures Clear(c).resolvers == []
  {
    var c';
    supported, c' := SupportsParameter(Clear(c), p, supports);
  }
}
