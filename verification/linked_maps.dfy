/**
 * Insertion-ordered maps (Java's LinkedHashMap and LinkedMultiValueMap) as
 * association lists. `Put` keeps an existing key at its position and
 * replaces its value; a new key goes to the end.
 */
module LinkedMaps {
  import opened Common

  function Keys<K(==), V>(m: seq<(K, V)>): (ks: seq<K>)
    ensures |ks| == |m|
    ensures forall i :: 0 <= i < |m| ==> ks[i] == m[i].0
  {
    seq(|m|, i requires 0 <= i < |m| => m[i].0)
  }

  predicate DistinctKeys<K(==), V>(m: seq<(K, V)>) {
    NoDuplicates(Keys(m))
  }

  /** Map.get: the value stored under `k`, or null. */
  function Get<K(==), V>(m: seq<(K, V)>, k: K): (r: Option<V>)
    ensures r.Some? <==> k in Keys(m)

  {
    if |m| == 0 then None
    else if m[0].0 == k then Some(m[0].1)
    else
      assert Keys(m) == [m[0].0] + Keys(m[1..]);
      Get(m[1..], k)
  }

  /** Map.put on a LinkedHashMap. */
  function Put<K(==), V>(m: seq<(K, V)>, k: K, v: V): (r: seq<(K, V)>)
    ensures k in Keys(m) ==> Keys(r) == Keys(m)
    ensures k !in Keys(m) ==> Keys(r) == Keys(m) + [k]
  {
    if |m| == 0 then [(k, v)]
    else
      KeysCons(m[0], m[1..]);
      assert [m[0]] + m[1..] == m;
      if m[0].0 == k then
        KeysCons((k, v), m[1..]);
        [(k, v)] + m[1..]
      else
        var rest := Put(m[1..], k, v);
        KeysCons(m[0], rest);
        [m[0]] + rest
  }

  /** The keys of an entry list with one more entry in front. */
  lemma KeysCons<K, V>(e: (K, V), m: seq<(K, V)>)
    ensures Keys([e] + m) == [e.0] + Keys(m)
  {
  }

  /** After a put, the key holds the new value and every other key is unchanged. */
  lemma {:induction false} GetPut<K, V>(m: seq<(K, V)>, k: K, v: V, k': K)
    ensures Get(Put(m, k, v), k') == (if k' == k then Some(v) else Get(m, k'))
  {
    if |m| > 0 && m[0].0 != k {
      GetPut(m[1..], k, v, k');
    }
  }

  /** A put never introduces a duplicate key. */
  lemma PutKeepsDistinct<K, V>(m: seq<(K, V)>, k: K, v: V)
    ensures DistinctKeys(m) ==> DistinctKeys(Put(m, k, v))
  {
  }

  /** Map.putAll, or a sequence of puts in the given order. */
  function PutAll<K(==), V>(m: seq<(K, V)>, es: seq<(K, V)>): seq<(K, V)>
    decreases |es|
  {
    if |es| == 0 then m else PutAll(Put(m, es[0].0, es[0].1), es[1..])
  }

  /** Two series of puts are one series of puts of both, in order. */
  lemma {:induction false} PutAllAppend<K, V>(m: seq<(K, V)>, a: seq<(K, V)>, b: seq<(K, V)>)
    ensures PutAll(PutAll(m, a), b) == PutAll(m, a + b)
    decreases |a|
  {
    if |a| == 0 {
      assert a + b == b;
    } else {
      assert (a + b)[1..] == a[1..] + b;
      PutAllAppend(Put(m, a[0].0, a[0].1), a[1..], b);
    }
  }

  /** Putting one more entry after a series of puts. */
  lemma {:induction false} PutAllSnoc<K, V>(m: seq<(K, V)>, es: seq<(K, V)>, e: (K, V))
    ensures PutAll(m, es + [e]) == Put(PutAll(m, es), e.0, e.1)
    decreases |es|
  {
    if |es| > 0 {
      assert (es + [e])[1..] == es[1..] + [e];
      PutAllSnoc(Put(m, es[0].0, es[0].1), es[1..], e);
    }
  }

  /** A series of puts never introduces a duplicate key. */
  lemma {:induction false} PutAllDistinct<K, V>(m: seq<(K, V)>, es: seq<(K, V)>)
    requires DistinctKeys(m)
    ensures DistinctKeys(PutAll(m, es))
    decreases |es|
  {
    if |es| > 0 {
      PutKeepsDistinct(m, es[0].0, es[0].1);
      PutAllDistinct(Put(m, es[0].0, es[0].1), es[1..]);
    }
  }

  /** The value of the last entry of `es` with key `k`. */
  function LastValue<K(==), V>(es: seq<(K, V)>, k: K): V
    requires k in Keys(es)
  {
    if es[|es| - 1].0 == k then es[|es| - 1].1
    else
      assert Keys(es) == Keys(es[..|es| - 1]) + [es[|es| - 1].0];
      LastValue(es[..|es| - 1], k)
  }

  /** After a series of puts, a key holds the value of its last put. */
  lemma {:induction false} GetPutAll<K, V>(m: seq<(K, V)>, es: seq<(K, V)>, k: K)
    ensures k in Keys(es) ==> Get(PutAll(m, es), k) == Some(LastValue(es, k))
    ensures k !in Keys(es) ==> Get(PutAll(m, es), k) == Get(m, k)
    decreases |es|
  {
    if |es| > 0 {
      var e, rest := es[0], es[1..];
      assert [e] + rest == es;
      KeysCons(e, rest);
      var m' := Put(m, e.0, e.1);
      assert PutAll(m, es) == PutAll(m', rest);
      GetPutAll(m', rest, k);
      GetPut(m, e.0, e.1, k);
      if k in Keys(rest) {
        LastValueOfSuffix(es, k);
      } else if k == e.0 {
        LastValueOfHead(es, k);
      }
    }
  }

  lemma {:induction false} LastValueOfSuffix<K, V>(es: seq<(K, V)>, k: K)
    requires |es| > 0 && k in Keys(es[1..])
    ensures k in Keys(es) && LastValue(es, k) == LastValue(es[1..], k)
    decreases |es|
  {
    assert Keys(es) == [es[0].0] + Keys(es[1..]);
    var n := |es|;
    if es[n - 1].0 != k {
      assert es[1..][..n - 2] == es[..n - 1][1..];
      assert Keys(es[1..]) == Keys(es[1..][..n - 2]) + [es[n - 1].0];
      LastValueOfSuffix(es[..n - 1], k);
    }
  }

  lemma {:induction false} LastValueOfHead<K, V>(es: seq<(K, V)>, k: K)
    requires |es| > 0 && es[0].0 == k && k !in Keys(es[1..])
    ensures k in Keys(es) && LastValue(es, k) == es[0].1
    decreases |es|
  {
    var n := |es|;
    assert Keys(es) == [es[0].0] + Keys(es[1..]);
    if n > 1 {
      assert es[n - 1].0 == Keys(es[1..])[n - 2];
      assert Keys(es[..n - 1][1..]) == Keys(es[1..])[..n - 2];
      LastValueOfHead(es[..n - 1], k);
    }
  }

  /** Looking up a key in a map with one more entry at its end. */
  lemma {:induction false} GetSnoc<K, V>(m: seq<(K, V)>, e: (K, V), k: K)
    ensures Keys(m + [e]) == Keys(m) + [e.0]
    ensures Get(m + [e], k) == (if k in Keys(m) then Get(m, k) else if e.0 == k then Some(e.1) else None)
    decreases |m|
  {
    if |m| > 0 {
      assert (m + [e])[1..] == m[1..] + [e];
      assert Keys(m) == [m[0].0] + Keys(m[1..]);
      GetSnoc(m[1..], e, k);
    }
  }

  /** Distinct keys stay distinct in a prefix, and the last key is not in it. */
  lemma DistinctKeysSnoc<K, V>(m: seq<(K, V)>, e: (K, V))
    requires DistinctKeys(m + [e])
    ensures DistinctKeys(m) && e.0 !in Keys(m)
  {
    assert Keys(m + [e]) == Keys(m) + [e.0];
    forall i, j | 0 <= i < j < |m| ensures Keys(m)[i] != Keys(m)[j] {
      assert Keys(m + [e])[i] != Keys(m + [e])[j];
    }
    forall i | 0 <= i < |m| ensures Keys(m)[i] != e.0 {
      assert Keys(m + [e])[i] != Keys(m + [e])[|m|];
    }
  }

  /** LinkedMultiValueMap.add: append `v` to the list held under `k`. */
  function Add<K(==), V>(m: seq<(K, seq<V>)>, k: K, v: V): seq<(K, seq<V>)> {
    Put(m, k, Get(m, k).GetOr([]) + [v])
  }

  /** After an add, the key's list has grown by `v`; other keys are unchanged. */
  lemma GetAdd<K, V>(m: seq<(K, seq<V>)>, k: K, v: V, k': K)
    ensures Get(Add(m, k, v), k') == (if k' == k then Some(Get(m, k).GetOr([]) + [v]) else Get(m, k'))
  {
    GetPut(m, k, Get(m, k).GetOr([]) + [v], k');
  }
}
